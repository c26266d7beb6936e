/** The inference path of `MainActivity`: the encoder and decoder handles it
    holds, the encoder layout search that may replace the encoder, and
    `transcribeOnce` from PCM samples to text. Model loading, the microphone
    and the UI state are not part of this model; the `k`-th encoder load
    made by the search returns `load(k)`. */
module Activity {
  import opened Wrappers
  import opened Engine
  import opened Text
  import opened Tokenizer
  import opened EncoderShape
  import opened Greedy
  import Mel
  import Fft

  /** What `transcribeOnce` gives back: null, a text, or an exception that
      nothing catches. */
  datatype Transcript = NoTranscript | Transcribed(text: string) | Uncaught

  /** The end of `transcribeOnce` once the encoder search is over: null when
      it found no tensor, otherwise the greedy loop and `decode` of the ids
      it generated. */
  function TranscriptFrom(rt: Runtime, dec: Handle, tokenizer: SimpleTokenizer, encOut: Option<Tensor>): Transcript
  {
    if encOut.None? then NoTranscript
    else
      match GreedyFrom(DecoderOf(rt, dec, encOut.value), tokenizer.id2tok, tokenizer.PromptIdsAuto(), [], MaxSteps)
      case Aborted => NoTranscript
      case Crashed => Uncaught
      case Generated(ids) => Transcribed(DecodeOf(tokenizer.id2tok, tokenizer.eosId, ids))
  }

  /** A transcript is the decoding of exactly 224 generated ids: it has no two
      consecutive spaces and no whitespace at either end, and ids after the
      first end-of-text id do not show in it. */
  lemma TranscriptShape(rt: Runtime, dec: Handle, tokenizer: SimpleTokenizer, encOut: Option<Tensor>)
    requires TranscriptFrom(rt, dec, tokenizer, encOut).Transcribed?
    ensures var d := GreedyFrom(DecoderOf(rt, dec, encOut.value), tokenizer.id2tok, tokenizer.PromptIdsAuto(), [], MaxSteps);
      d.Generated? && |d.ids| == MaxSteps
      && TranscriptFrom(rt, dec, tokenizer, encOut).text == DecodeOf(tokenizer.id2tok, tokenizer.eosId, d.ids)
    ensures var s := TranscriptFrom(rt, dec, tokenizer, encOut).text;
      NoDoubleSpace(s) && (s == [] || (!IsWhitespace(s[0]) && !IsWhitespace(s[|s| - 1])))
  {
    var d := GreedyFrom(DecoderOf(rt, dec, encOut.value), tokenizer.id2tok, tokenizer.PromptIdsAuto(), [], MaxSteps);
    GreedyLength(DecoderOf(rt, dec, encOut.value), tokenizer.id2tok, tokenizer.PromptIdsAuto(), [], MaxSteps);
    DecodeShape(tokenizer.id2tok, tokenizer.eosId, d.ids);
  }

  /** `attempts` is what `tryEncForward` does on the layouts of `mel`. */
  ghost predicate Agrees(attempts: Attempts, rt: Runtime, mel: seq<real>)
    requires |mel| == MelSize
  {
    forall h: Handle, i: nat | i < Count :: AgreesAt(attempts, rt, mel, h, i)
  }

  /** `attempts` is what `tryEncForward` does with the handle `h` on layout `i`. */
  ghost predicate AgreesAt(attempts: Attempts, rt: Runtime, mel: seq<real>, h: Handle, i: nat)
    requires |mel| == MelSize && i < Count
  {
    attempts(h, i) == Classify(TryEncForward(rt, h, Inputs(mel, Candidates[i])))
  }

  lemma LoggedNothing(n: Negotiation)
    ensures n == Logged([], [], n)
  {
  }

  lemma LoggedTwice(d1: seq<Handle>, c1: seq<Call>, d2: seq<Handle>, c2: seq<Call>, n: Negotiation)
    ensures Logged(d1, c1, Logged(d2, c2, n)) == Logged(d1 + d2, c1 + c2, n)
  {
    assert d1 + (d2 + n.destroyed) == (d1 + d2) + n.destroyed;
    assert c1 + (c2 + n.calls) == (c1 + c2) + n.calls;
  }

  /** The loop of `encodeAuto` on the local `enc`, for any `attempts` that
      agree with `tryEncForward` on the twelve layouts. */
  method Negotiate(rt: Runtime, load: nat -> Option<Handle>, melOut: seq<real>, ghost attempts: Attempts,
                   enc0: Option<Handle>, loads0: nat) returns (n: Negotiation)
    requires |melOut| == MelSize && Agrees(attempts, rt, melOut)
    ensures n == NegotiateFrom(attempts, load, enc0, 0, loads0)
  {
    ghost var goal := NegotiateFrom(attempts, load, enc0, 0, loads0);
    var s := Loop([], [], enc0, 0, loads0);
    LoggedNothing(goal);
    while s.i < Count && s.enc.Some?
      invariant Pending(attempts, load, goal, s)
      decreases Count - s.i
    {
      var finished;
      finished, n, s := Advance(rt, load, melOut, attempts, goal, s);
      if finished {
        return;
      }
    }
    LogEmpty(attempts, load, goal, s);
    n := Logged(s.doneD, s.doneC, Negotiation(None, None, s.loads, [], []));
  }

  /** The local state of the loop of `Negotiate`: the destroys and calls
      made so far, the handle `enc`, the layout index and the loads. */
  datatype Loop = Loop(doneD: seq<Handle>, doneC: seq<Call>, enc: Option<Handle>, i: nat, loads: nat)

  /** One pass of the loop of `Negotiate`: the negotiation when the pass
      returns a tensor, otherwise the local state after it. */
  method Advance(rt: Runtime, load: nat -> Option<Handle>, melOut: seq<real>, ghost attempts: Attempts,
                 ghost goal: Negotiation, s: Loop) returns (finished: bool, n: Negotiation, s': Loop)
    requires |melOut| == MelSize && Agrees(attempts, rt, melOut)
    requires s.i < Count && s.enc.Some? && Pending(attempts, load, goal, s)
    ensures finished ==> n == goal
    ensures !finished ==> Pending(attempts, load, goal, s') && s'.i == s.i + 1
  {
    var r := TryLayout(rt, load, melOut, attempts, s.enc.value, s.i, s.loads);
    if r.result.Some? {
      LogFinished(attempts, load, goal, s);
      return true, Logged(s.doneD, s.doneC, Negotiation(r.result, if |r.calls| == 2 then r.enc else None, r.loads, r.destroyed, r.calls)), s;
    }
    LogAdvance(attempts, load, goal, s, r);
    finished, n := false, Negotiation(None, None, s.loads, [], []);
    s' := Loop(s.doneD + r.destroyed, s.doneC + r.calls, r.enc, s.i + 1, r.loads);
  }

  /** The loop invariant of `Negotiate`: the whole negotiation is what is
      logged so far followed by the rest of the loop. */
  ghost predicate Pending(attempts: Attempts, load: nat -> Option<Handle>, goal: Negotiation, s: Loop)
  {
    s.i <= Count && goal == Logged(s.doneD, s.doneC, NegotiateFrom(attempts, load, s.enc, s.i, s.loads))
  }

  /** A pass that returns a tensor ends the loop. */
  lemma LogFinished(attempts: Attempts, load: nat -> Option<Handle>, goal: Negotiation, s: Loop)
    requires s.i < Count && s.enc.Some? && Pending(attempts, load, goal, s)
    requires RoundAt(attempts, load, s.enc.value, s.i, s.loads).result.Some?
    ensures var r := RoundAt(attempts, load, s.enc.value, s.i, s.loads);
      goal == Logged(s.doneD, s.doneC, Negotiation(r.result, if |r.calls| == 2 then r.enc else None, r.loads, r.destroyed, r.calls))
  {
    NegotiateStep(attempts, load, s.enc.value, s.i, s.loads);
  }

  /** A pass that returns nothing moves its calls and destroys to the log. */
  lemma LogAdvance(attempts: Attempts, load: nat -> Option<Handle>, goal: Negotiation, s: Loop, r: Round)
    requires s.i < Count && s.enc.Some? && Pending(attempts, load, goal, s)
    requires r == RoundAt(attempts, load, s.enc.value, s.i, s.loads) && r.result.None?
    ensures Pending(attempts, load, goal, Loop(s.doneD + r.destroyed, s.doneC + r.calls, r.enc, s.i + 1, r.loads))
  {
    NegotiateStep(attempts, load, s.enc.value, s.i, s.loads);
    LoggedTwice(s.doneD, s.doneC, r.destroyed, r.calls, NegotiateFrom(attempts, load, r.enc, s.i + 1, r.loads));
  }

  /** Past the last layout, or without a handle, nothing is left to do. */
  lemma LogEmpty(attempts: Attempts, load: nat -> Option<Handle>, goal: Negotiation, s: Loop)
    requires Pending(attempts, load, goal, s) && (s.i == Count || s.enc.None?)
    ensures goal == Logged(s.doneD, s.doneC, Negotiation(None, None, s.loads, [], []))
  {
  }

  /** One pass of the loop on layout `i` with the handle `h`: the forward
      call, and after a mid-execution failure the destroy, the reload and the
      retry. */
  method TryLayout(rt: Runtime, load: nat -> Option<Handle>, melOut: seq<real>, ghost attempts: Attempts,
                   h: Handle, i: nat, loads: nat) returns (r: Round)
    requires |melOut| == MelSize && i < Count && Agrees(attempts, rt, melOut)
    ensures r == RoundAt(attempts, load, h, i, loads)
  {
    assert AgreesAt(attempts, rt, melOut, h, i);
    var inputs := BuildInputs(melOut, Candidates[i]);
    var a := TryEncForward(rt, h, inputs);
    if a.Encoded? {
      return Round([Call(h, i)], [], Some(a.tensor), Some(h), loads);
    }
    if !Contains(a.message, MidExecution) {
      return Round([Call(h, i)], [], None, Some(h), loads);
    }
    var enc := load(loads);
    if enc.None? {
      return Round([Call(h, i)], [h], None, None, loads + 1);
    }
    assert AgreesAt(attempts, rt, melOut, enc.value, i);
    var inputs2 := BuildInputs(melOut, Candidates[i]);
    var a2 := TryEncForward(rt, enc.value, inputs2);
    r := Round([Call(h, i), Call(enc.value, i)], [h], if a2.Encoded? then Some(a2.tensor) else None, enc, loads + 1);
  }

  /** The parts of `MainActivity` that inference reads and writes. */
  class Transcriber {
    var whisperEncoder: Option<Handle>
    var whisperDecoder: Option<Handle>
    /** Encoder loads made so far. */
    var loads: nat
    /** Handles destroyed so far, in order. */
    var destroyed: seq<Handle>
    /** The encoder forward calls made so far, in order. */
    ghost var calls: seq<Call>

    const rt: Runtime
    const load: nat -> Option<Handle>
    const mel: Mel.MelSpec
    const tokenizer: SimpleTokenizer

    constructor(rt: Runtime, load: nat -> Option<Handle>, mel: Mel.MelSpec, tokenizer: SimpleTokenizer,
                encoder: Option<Handle>, decoder: Option<Handle>)
      ensures this.rt == rt && this.load == load && this.mel == mel && this.tokenizer == tokenizer
      ensures whisperEncoder == encoder && whisperDecoder == decoder
      ensures loads == 0 && destroyed == [] && calls == []
    {
      this.rt := rt;
      this.load := load;
      this.mel := mel;
      this.tokenizer := tokenizer;
      whisperEncoder := encoder;
      whisperDecoder := decoder;
      loads := 0;
      destroyed := [];
      calls := [];
    }

    /** `encodeAuto`: the twelve layouts in order on the local `enc`, a
        destroy, reload and retry after a mid-execution failure, and the
        reloaded handle stored in `whisperEncoder` only when its retry
        succeeds. */
    method EncodeAuto(melOut: seq<real>) returns (t: Option<Tensor>)
      requires |melOut| == MelSize
      modifies this
      ensures var n := NegotiateFrom(AttemptsOn(rt, melOut), load, old(whisperEncoder), 0, old(loads));
        t == n.result && loads == n.loads && destroyed == old(destroyed) + n.destroyed
        && calls == old(calls) + n.calls
        && whisperEncoder == (if n.adopted.Some? then n.adopted else old(whisperEncoder))
      ensures whisperDecoder == old(whisperDecoder)
    {
      ghost var attempts := AttemptsOn(rt, melOut);
      forall h: Handle, i: nat | i < Count
        ensures AgreesAt(attempts, rt, melOut, h, i)
      {
        AttemptOnLayout(rt, melOut, h, i);
      }
      var n := Negotiate(rt, load, melOut, attempts, whisperEncoder, loads);
      t := n.result;
      loads := n.loads;
      destroyed := destroyed + n.destroyed;
      calls := calls + n.calls;
      if n.adopted.Some? {
        whisperEncoder := n.adopted;
      }
    }

    /** `transcribeOnce`: null without both handles; otherwise the log-mel
        matrix, the encoder search, the greedy loop and `decode`. */
    method TranscribeOnce(pcm: seq<real>, ln: real -> real, tw: Fft.Twiddles) returns (result: Transcript)
      requires mel.Valid() && mel.params == Mel.Defaults && Fft.ValidTwiddles(tw)
      modifies this
      ensures old(whisperEncoder).None? || old(whisperDecoder).None? ==>
        result == NoTranscript && whisperEncoder == old(whisperEncoder) && loads == old(loads)
        && destroyed == old(destroyed) && calls == old(calls)
      ensures old(whisperEncoder).Some? && old(whisperDecoder).Some? ==>
        var x := Mel.LogMelOf(Mel.Normalize(pcm, 480000), Mel.Defaults, mel.hann, mel.melFilter, ln, tw);
        var n := NegotiateFrom(AttemptsOn(rt, x), load, old(whisperEncoder), 0, old(loads));
        result == TranscriptFrom(rt, old(whisperDecoder).value, tokenizer, n.result)
        && loads == n.loads && destroyed == old(destroyed) + n.destroyed && calls == old(calls) + n.calls
        && whisperEncoder == (if n.adopted.Some? then n.adopted else old(whisperEncoder))
      ensures whisperDecoder == old(whisperDecoder)
    {
      if whisperEncoder.None? || whisperDecoder.None? {
        return NoTranscript;
      }
      Mel.DefaultFrames();
      var x := mel.LogMel(pcm, ln, tw);
      var encOut := EncodeAuto(x);
      if encOut.None? {
        return NoTranscript;
      }
      var d := Generate(rt, whisperDecoder.value, encOut.value, tokenizer);
      match d
      case Aborted => result := NoTranscript;
      case Crashed => result := Uncaught;
      case Generated(ids) =>
        var text := tokenizer.Decode(ids);
        result := Transcribed(text);
    }
  }
}
