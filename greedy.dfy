/** The greedy decoding loop of `transcribeOnce` (MainActivity.kt): one
    decoder call per step, the argmax over the last row of the logits, and
    the growing list of input ids, for at most 224 steps. */
module Greedy {
  import opened Wrappers
  import opened Engine
  import opened Tokenizer

  /** `maxSteps`. */
  const MaxSteps: nat := 224

  /** `idsToTensor`: the ids as an int32 tensor of shape `[1, n]`. */
  function IdsTensor(tokens: seq<int>): EValue
  {
    TensorValue(Ints(tokens, [1, |tokens|]))
  }

  /** The decoder call: `(input_ids, encoder_hidden)` first, and when that
      throws, the same two values in the other order. `None` when both throw. */
  function DecoderOutputs(rt: Runtime, dec: Handle, tokens: seq<int>, encOut: Tensor): (r: Option<seq<EValue>>)
    ensures var first := rt.forward(dec, [IdsTensor(tokens), TensorValue(encOut)]);
      first.Returned? ==> r == Some(first.outputs)
    ensures var first := rt.forward(dec, [IdsTensor(tokens), TensorValue(encOut)]);
      var second := rt.forward(dec, [TensorValue(encOut), IdsTensor(tokens)]);
      first.Threw? ==> (r.Some? <==> second.Returned?) && (second.Returned? ==> r.value == second.outputs)
  {
    match rt.forward(dec, [IdsTensor(tokens), TensorValue(encOut)])
    case Returned(outs) => Some(outs)
    case Threw(_) =>
      match rt.forward(dec, [TensorValue(encOut), IdsTensor(tokens)])
      case Returned(outs) => Some(outs)
      case Threw(_) => None
  }

  // ---------------------------------------------------------------------------
  // argmax

  /** `b` is the first position of a largest value among the first `n`
      values of `row`. */
  predicate IsFirstMax(row: seq<real>, n: nat, b: nat)
    requires n <= |row|
  {
    b < n && (forall i :: 0 <= i < n ==> row[i] <= row[b])
    && (forall i :: 0 <= i < b ==> row[i] < row[b])
  }

  /** The position the argmax loop holds after `n > 0` values: it moves only
      on a strictly larger value. */
  function ArgMaxPrefix(row: seq<real>, n: nat): (b: nat)
    requires 1 <= n <= |row|
    ensures b < n
  {
    if n == 1 then 0
    else
      var b := ArgMaxPrefix(row, n - 1);
      if row[n - 1] > row[b] then n - 1 else b
  }

  /** The `vocab` values of `flat` from `start` on. */
  function RowAt(flat: seq<real>, start: int, vocab: int): (row: seq<real>)
    requires 0 <= start && 0 < vocab && start + vocab <= |flat|
  {
    flat[start..start + vocab]
  }

  /** `bestId` after the argmax loop over `vocab` values from `start`: 0 when
      `vocab` is not positive. */
  function ArgMaxOf(flat: seq<real>, start: int, vocab: int): nat
    requires vocab <= 0 || (0 <= start && start + vocab <= |flat|)
  {
    if vocab <= 0 then 0 else ArgMaxPrefix(RowAt(flat, start, vocab), vocab)
  }

  lemma {:induction false} ArgMaxPrefixIsFirstMax(row: seq<real>, n: nat)
    requires 1 <= n <= |row|
    ensures IsFirstMax(row, n, ArgMaxPrefix(row, n))
  {
    if n > 1 {
      ArgMaxPrefixIsFirstMax(row, n - 1);
      var b := ArgMaxPrefix(row, n - 1);
      if row[n - 1] > row[b] {
        forall i | 0 <= i < n - 1
          ensures row[i] < row[n - 1]
        {
          assert row[i] <= row[b];
        }
      }
    }
  }

  /** The argmax is the first position of a largest value of the row, and no
      other position is. */
  lemma ArgMaxCharacterised(flat: seq<real>, start: nat, vocab: nat, b: nat)
    requires 0 < vocab && start + vocab <= |flat|
    ensures IsFirstMax(RowAt(flat, start, vocab), vocab, ArgMaxOf(flat, start, vocab))
    ensures IsFirstMax(RowAt(flat, start, vocab), vocab, b) <==> b == ArgMaxOf(flat, start, vocab)
  {
    var row := RowAt(flat, start, vocab);
    var a := ArgMaxOf(flat, start, vocab);
    ArgMaxPrefixIsFirstMax(row, vocab);
    if IsFirstMax(row, vocab, b) {
      assert row[a] <= row[b] && row[b] <= row[a];
    }
  }

  /** The argmax loop: `best` starts below every value (`None` stands for
      negative infinity) and moves on a strictly larger value. */
  method ArgMax(flat: seq<real>, start: int, vocab: int) returns (bestId: nat)
    requires vocab <= 0 || (0 <= start && start + vocab <= |flat|)
    ensures bestId == ArgMaxOf(flat, start, vocab)
  {
    bestId := 0;
    var best: Option<real> := None;
    var i := 0;
    while i < vocab
      invariant 0 <= i <= (if vocab > 0 then vocab else 0)
      invariant i == 0 ==> best.None? && bestId == 0
      invariant i > 0 ==> bestId == ArgMaxPrefix(RowAt(flat, start, vocab), i) && best == Some(flat[start + bestId])
      decreases vocab - i
    {
      var v := flat[start + i];
      if best.None? || v > best.value {
        best := Some(v);
        bestId := i;
      }
      i := i + 1;
    }
  }

  // ---------------------------------------------------------------------------
  // One step

  /** What one step of the loop ends in: the next id, `return null`, or an
      exception nothing catches. */
  datatype Step = Next(id: int) | Abort | Crash

  /** One step on the current input ids. No outputs, or a first output that
      is not a tensor, returns null. An empty shape (`shape.last()`), int data
      (`getDataAsFloatArray`) and a row past the end of the data throw. The
      row read is the last time step of a `[1, T, V]` tensor, or the start of
      the data otherwise. */
  function DecodeStep(rt: Runtime, dec: Handle, tokens: seq<int>, encOut: Tensor): Step
  {
    match DecoderOutputs(rt, dec, tokens, encOut)
    case None => Abort
    case Some(outs) =>
      match FirstTensorOrNull(rt, outs)
      case None => Abort
      case Some(logits) =>
        var shape := logits.Shape();
        if shape == [] || logits.Ints? then Crash
        else
          var vocab := shape[|shape| - 1];
          var start := if |shape| == 3 then (if shape[1] - 1 >= 0 then shape[1] - 1 else 0) * vocab else 0;
          if vocab > 0 && start + vocab > |logits.values| then Crash
          else Next(ArgMaxOf(logits.values, start, vocab))
  }

  /** A step that yields an id read it from the logits row: the id is below the
      vocabulary size (or 0 for an empty vocabulary) and holds a largest
      value of that row, the first such. */
  lemma StepPicksMax(rt: Runtime, dec: Handle, tokens: seq<int>, encOut: Tensor)
    requires DecodeStep(rt, dec, tokens, encOut).Next?
    ensures var outs := DecoderOutputs(rt, dec, tokens, encOut).value;
      var logits := FirstTensorOrNull(rt, outs).value;
      var shape := logits.shape;
      var vocab := shape[|shape| - 1];
      var start := if |shape| == 3 then (if shape[1] - 1 >= 0 then shape[1] - 1 else 0) * vocab else 0;
      var id := DecodeStep(rt, dec, tokens, encOut).id;
      logits.Floats? && (vocab <= 0 ==> id == 0) &&
      (vocab > 0 ==> 0 <= start && start + vocab <= |logits.values| && IsFirstMax(RowAt(logits.values, start, vocab), vocab, id))
  {
    var outs := DecoderOutputs(rt, dec, tokens, encOut).value;
    var logits := FirstTensorOrNull(rt, outs).value;
    var shape := logits.shape;
    var vocab := shape[|shape| - 1];
    if vocab > 0 {
      var start := if |shape| == 3 then (if shape[1] - 1 >= 0 then shape[1] - 1 else 0) * vocab else 0;
      ArgMaxCharacterised(logits.values, start, vocab, 0);
    }
  }

  /** A step: the decoder call, `firstOrNull()?.toTensor()`, the shape and
      the argmax loop. */
  method DecodeOnce(rt: Runtime, dec: Handle, tokens: seq<int>, encOut: Tensor) returns (s: Step)
    ensures s == DecodeStep(rt, dec, tokens, encOut)
  {
    var outs := DecoderOutputs(rt, dec, tokens, encOut);
    if outs.None? {
      return Abort;
    }
    var logits := FirstTensorOrNull(rt, outs.value);
    if logits.None? {
      return Abort;
    }
    var shape := logits.value.Shape();
    if shape == [] || logits.value.Ints? {
      return Crash;
    }
    var vocab := shape[|shape| - 1];
    var flat := logits.value.values;
    var start := 0;
    if |shape| == 3 {
      start := (if shape[1] - 1 >= 0 then shape[1] - 1 else 0) * vocab;
    }
    if vocab > 0 && start + vocab > |flat| {
      return Crash;
    }
    var bestId := ArgMax(flat, start, vocab);
    s := Next(bestId);
  }

  // ---------------------------------------------------------------------------
  // The loop

  /** What the decoder does with an input: the step that `DecodeStep` takes
      for the fixed runtime, decoder handle and encoder output. */
  type Decoder = seq<int> -> Step

  function DecoderOf(rt: Runtime, dec: Handle, encOut: Tensor): Decoder
  {
    tokens => DecodeStep(rt, dec, tokens, encOut)
  }

  /** How greedy decoding ends: the ids generated over all steps, `return
      null`, or an exception. */
  datatype Decoding = Generated(ids: seq<int>) | Aborted | Crashed

  /** The `repeat(maxSteps)` loop from the input ids `tokens` and the ids
      `generated` so far, with `steps` steps left. Every id is recorded; only
      an id that is not special is appended to the input, and a special id
      does not end the loop. */
  function GreedyFrom(step: Decoder, table: seq<string>,
                      tokens: seq<int>, generated: seq<int>, steps: nat): Decoding
    decreases steps
  {
    if steps == 0 then Generated(generated)
    else
      match step(tokens)
      case Abort => Aborted
      case Crash => Crashed
      case Next(id) =>
        GreedyFrom(step, table, if IsSpecialIn(table, id) then tokens else tokens + [id],
                   generated + [id], steps - 1)
  }

  /** The ids of `ids` that are not special, in order. */
  function NonSpecial(table: seq<string>, ids: seq<int>): seq<int>
  {
    if ids == [] then []
    else
      var last := ids[|ids| - 1];
      NonSpecial(table, ids[..|ids| - 1]) + (if IsSpecialIn(table, last) then [] else [last])
  }

  /** `NonSpecial` keeps exactly the ids that are not special. */
  lemma {:induction false} NonSpecialFilters(table: seq<string>, ids: seq<int>)
    ensures forall k :: 0 <= k < |NonSpecial(table, ids)| ==> !IsSpecialIn(table, NonSpecial(table, ids)[k])
    ensures forall id :: id in ids && !IsSpecialIn(table, id) ==> id in NonSpecial(table, ids)
  {
    if ids != [] {
      var init := ids[..|ids| - 1];
      NonSpecialFilters(table, init);
      assert ids == init + [ids[|ids| - 1]];
    }
  }

  /** The loop as a function of the prompt and the generated ids alone: the
      decoder always sees the prompt followed by the generated ids that are
      not special. */
  function GreedyRef(step: Decoder, table: seq<string>,
                     prompt: seq<int>, generated: seq<int>, steps: nat): Decoding
    decreases steps
  {
    if steps == 0 then Generated(generated)
    else
      match step(prompt + NonSpecial(table, generated))
      case Abort => Aborted
      case Crash => Crashed
      case Next(id) => GreedyRef(step, table, prompt, generated + [id], steps - 1)
  }

  /** The loop that grows its input id by id computes the reference. */
  lemma {:induction false} GreedyMatchesRef(step: Decoder, table: seq<string>,
                                            prompt: seq<int>, generated: seq<int>, steps: nat)
    ensures GreedyFrom(step, table, prompt + NonSpecial(table, generated), generated, steps)
            == GreedyRef(step, table, prompt, generated, steps)
    decreases steps
  {
    if steps > 0 {
      var s := step(prompt + NonSpecial(table, generated));
      if s.Next? {
        GreedyMatchesRef(step, table, prompt, generated + [s.id], steps - 1);
        RefStep(step, table, prompt, generated, steps);
      } else {
        RefStop(step, table, prompt, generated, steps);
      }
    }
  }

  /** Both loops end on the same null or exception. */
  lemma RefStop(step: Decoder, table: seq<string>,
                prompt: seq<int>, generated: seq<int>, steps: nat)
    requires steps > 0 && !step(prompt + NonSpecial(table, generated)).Next?
    ensures GreedyFrom(step, table, prompt + NonSpecial(table, generated), generated, steps)
            == GreedyRef(step, table, prompt, generated, steps)
  {
  }

  /** One step of both loops after an id: the growing input is the prompt
      followed by the non-special ids generated so far. */
  lemma RefStep(step: Decoder, table: seq<string>,
                prompt: seq<int>, generated: seq<int>, steps: nat)
    requires steps > 0 && step(prompt + NonSpecial(table, generated)).Next?
    ensures var g := generated + [step(prompt + NonSpecial(table, generated)).id];
      GreedyFrom(step, table, prompt + NonSpecial(table, generated), generated, steps)
        == GreedyFrom(step, table, prompt + NonSpecial(table, g), g, steps - 1)
      && GreedyRef(step, table, prompt, generated, steps) == GreedyRef(step, table, prompt, g, steps - 1)
  {
    var tokens := prompt + NonSpecial(table, generated);
    var id := step(tokens).id;
    var g := generated + [id];
    assert g[..|g| - 1] == generated;
    assert (if IsSpecialIn(table, id) then tokens else tokens + [id]) == prompt + NonSpecial(table, g);
  }

  /** A decoding that finishes runs every step: it records exactly one id per
      step after the ids it started with, so 224 ids from the start. */
  lemma {:induction false} GreedyLength(step: Decoder, table: seq<string>,
                                        tokens: seq<int>, generated: seq<int>, steps: nat)
    ensures var d := GreedyFrom(step, table, tokens, generated, steps);
      d.Generated? ==> |d.ids| == |generated| + steps && d.ids[..|generated|] == generated
    decreases steps
  {
    if steps > 0 {
      var s := step(tokens);
      if s.Next? {
        var g := generated + [s.id];
        GreedyLength(step, table, if IsSpecialIn(table, s.id) then tokens else tokens + [s.id], g, steps - 1);
        var d := GreedyFrom(step, table, tokens, generated, steps);
        if d.Generated? {
          assert d.ids[..|g|][..|generated|] == d.ids[..|generated|];
        }
      }
    }
  }

  /** `repeat(maxSteps)` with the prompt of `tokenizer`: each step's id is
      recorded, a special one is not fed back, and the first null or
      exception ends the decoding. */
  method Generate(rt: Runtime, dec: Handle, encOut: Tensor, tokenizer: SimpleTokenizer) returns (d: Decoding)
    ensures d == GreedyFrom(DecoderOf(rt, dec, encOut), tokenizer.id2tok, tokenizer.PromptIdsAuto(), [], MaxSteps)
  {
    ghost var goal := GreedyFrom(DecoderOf(rt, dec, encOut), tokenizer.id2tok, tokenizer.PromptIdsAuto(), [], MaxSteps);
    var g := Progress(tokenizer.PromptIdsAuto(), [], MaxSteps);
    while g.left > 0
      invariant Remaining(DecoderOf(rt, dec, encOut), tokenizer.id2tok, goal, g)
      decreases g.left
    {
      var s;
      s, g := GenerateStep(rt, dec, encOut, tokenizer, goal, g);
      if s.Abort? {
        return Aborted;
      } else if s.Crash? {
        return Crashed;
      }
    }
    d := Generated(g.generated);
  }

  /** The local state of the loop: the ids fed to the decoder, the ids
      recorded, and the passes left. */
  datatype Progress = Progress(tokens: seq<int>, generated: seq<int>, left: nat)

  /** The loop invariant of `Generate`: the rest of the loop from `g` ends the
      way the whole loop does. */
  ghost predicate Remaining(step: Decoder, table: seq<string>, goal: Decoding, g: Progress)
  {
    GreedyFrom(step, table, g.tokens, g.generated, g.left) == goal
  }

  /** One pass of `repeat(maxSteps)`: the decoder call, the id recorded, and
      the id fed back unless it is special. */
  method GenerateStep(rt: Runtime, dec: Handle, encOut: Tensor, tokenizer: SimpleTokenizer,
                      ghost goal: Decoding, g: Progress) returns (s: Step, g': Progress)
    requires g.left > 0 && Remaining(DecoderOf(rt, dec, encOut), tokenizer.id2tok, goal, g)
    ensures s == DecodeStep(rt, dec, g.tokens, encOut)
    ensures s.Abort? ==> goal == Aborted
    ensures s.Crash? ==> goal == Crashed
    ensures s.Next? ==> g'.generated == g.generated + [s.id] && g'.left == g.left - 1
    ensures s.Next? ==> Remaining(DecoderOf(rt, dec, encOut), tokenizer.id2tok, goal, g')
  {
    s := DecodeOnce(rt, dec, g.tokens, encOut);
    g' := g;
    if s.Next? {
      var tokens := if tokenizer.IsSpecial(s.id) then g.tokens else g.tokens + [s.id];
      g' := Progress(tokens, g.generated + [s.id], g.left - 1);
    }
  }
}
