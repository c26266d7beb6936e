/** The encoder-input side of MainActivity.kt: the two layout helpers that
    re-arrange the band-major 80 x 3000 log-mel matrix, the twelve input
    layouts `encodeAuto` offers the encoder in order, `tryEncForward`, and the
    specification of the whole `encodeAuto` search with its one-time reload. */
module EncoderShape {
  import opened Wrappers
  import opened Arith
  import opened Engine
  import opened Text

  /** Mel bands, and columns of the source matrix (`srcT`). */
  const Bands: nat := 80
  const SrcT: nat := 3000
  /** Length of the source matrix. */
  const MelSize: nat := 240000

  // ---------------------------------------------------------------------------
  // mel80xT_to_Tx80

  /** Cell `q = t*80 + m` of the time-major layout: band `m` of column `t`, or
      0 for a column the source does not have. */
  function TimeMajorCell(mel: seq<real>, q: nat): real
    requires |mel| == MelSize
  {
    var t, m := q / Bands, q % Bands;
    if t < SrcT then mel[m * SrcT + t] else 0.0
  }

  /** The result of `mel80xT_to_Tx80(mel, T)`: `T` rows of 80 bands. */
  function TimeMajor(mel: seq<real>, T: nat): (out: seq<real>)
    requires |mel| == MelSize
    ensures |out| == T * Bands
  {
    seq(T * Bands, q requires 0 <= q => TimeMajorCell(mel, q))
  }

  /** `out[t*80 + m] = in[m*3000 + t]` for `t < min(T, 3000)`; 0 for the other
      columns. */
  lemma TimeMajorAt(mel: seq<real>, T: nat, t: nat, m: nat)
    requires |mel| == MelSize && t < T && m < Bands
    ensures t * Bands + m < T * Bands
    ensures TimeMajor(mel, T)[t * Bands + m] == if t < Min(T, SrcT) then mel[m * SrcT + t] else 0.0
  {
    MulMonoLe(t + 1, T, Bands);
    DivModUnique(t * Bands + m, Bands, t, m);
  }

  /** `out` agrees with the time-major layout below `k` and is 0 from `k` on. */
  predicate TimeFilled(out: seq<real>, mel: seq<real>, k: nat)
    requires |mel| == MelSize
  {
    forall q :: 0 <= q < |out| ==> out[q] == if q < k then TimeMajorCell(mel, q) else 0.0
  }

  /** Storing band `m` of column `t` at `t*80 + m` extends the filled part by one. */
  lemma TimeStep(out: seq<real>, mel: seq<real>, t: nat, m: nat)
    requires |mel| == MelSize && t < SrcT && m < Bands && t * Bands + m < |out|
    requires TimeFilled(out, mel, t * Bands + m)
    ensures m * SrcT + t < MelSize
    ensures TimeFilled(out[t * Bands + m := mel[m * SrcT + t]], mel, t * Bands + m + 1)
  {
    DivModUnique(t * Bands + m, Bands, t, m);
  }

  /** Past column 3000, every cell of the time-major layout is 0. */
  lemma TimeTail(out: seq<real>, mel: seq<real>, T: nat)
    requires |mel| == MelSize && |out| == T * Bands
    requires TimeFilled(out, mel, Min(T, SrcT) * Bands)
    ensures out == TimeMajor(mel, T)
  {
    forall q | 0 <= q < |out|
      ensures out[q] == TimeMajorCell(mel, q)
    {
      if q >= Min(T, SrcT) * Bands {
        DivModUnique(q, Bands, q / Bands, q % Bands);
      }
    }
  }

  /** `mel80xT_to_Tx80`: a fresh array of `T*80` zeros, then for each of the
      first `min(T, 3000)` columns the 80 bands copied into one row. */
  method Mel80xTToTx80(mel: seq<real>, T: nat) returns (out: seq<real>)
    requires |mel| == MelSize
    ensures out == TimeMajor(mel, T)
  {
    var a := new real[T * Bands](_ => 0.0);
    var copyT := Min(T, SrcT);
    for t := 0 to copyT
      invariant TimeFilled(a[..], mel, t * Bands)
    {
      var dst := t * Bands;
      MulMonoLe(t + 1, T, Bands);
      for m := 0 to Bands
        invariant TimeFilled(a[..], mel, dst + m)
      {
        TimeStep(a[..], mel, t, m);
        a[dst + m] := mel[m * SrcT + t];
      }
    }
    TimeTail(a[..], mel, T);
    out := a[..];
  }

  // ---------------------------------------------------------------------------
  // mel80x3000_cropTo80xT

  /** Cell `q = m*T + t` of the cropped band-major layout. */
  function BandMajorCell(mel: seq<real>, T: nat, q: nat): real
    requires |mel| == MelSize && q < Bands * T
  {
    QuotientBelow(q, Bands, T);
    var m, t := q / T, q % T;
    if t < SrcT then mel[m * SrcT + t] else 0.0
  }

  /** The result of `mel80x3000_cropTo80xT(mel, T)`: 80 rows of `T` columns. */
  function BandMajor(mel: seq<real>, T: nat): (out: seq<real>)
    requires |mel| == MelSize
    ensures |out| == Bands * T
  {
    seq(Bands * T, q requires 0 <= q < Bands * T => BandMajorCell(mel, T, q))
  }

  /** `out[m*T + t] = in[m*3000 + t]` for `t < min(T, 3000)`; 0 for the other
      columns. */
  lemma BandMajorAt(mel: seq<real>, T: nat, m: nat, t: nat)
    requires |mel| == MelSize && m < Bands && t < T
    ensures m * T + t < Bands * T
    ensures BandMajor(mel, T)[m * T + t] == if t < Min(T, SrcT) then mel[m * SrcT + t] else 0.0
  {
    MulMonoLe(m + 1, Bands, T);
    DivModUnique(m * T + t, T, m, t);
  }

  /** `out` agrees with the cropped layout on its first `m` rows and is 0 after them. */
  predicate BandFilled(out: seq<real>, mel: seq<real>, T: nat, k: nat)
    requires |mel| == MelSize && |out| == Bands * T
  {
    forall q :: 0 <= q < |out| ==> out[q] == if q < k then BandMajorCell(mel, T, q) else 0.0
  }

  /** Copying `min(T, 3000)` values of source row `m` to `m*T` fills row `m`. */
  lemma BandStep(out: seq<real>, mel: seq<real>, T: nat, m: nat)
    requires |mel| == MelSize && |out| == Bands * T && m < Bands
    requires BandFilled(out, mel, T, m * T)
    ensures (m + 1) * T <= Bands * T && m * SrcT + Min(T, SrcT) <= MelSize
    ensures var copyT := Min(T, SrcT);
      BandFilled(out[..m * T] + mel[m * SrcT..m * SrcT + copyT] + out[m * T + copyT..], mel, T, (m + 1) * T)
  {
    var copyT := Min(T, SrcT);
    MulMonoLe(m + 1, Bands, T);
    MulSucc(m, T);
    var next := out[..m * T] + mel[m * SrcT..m * SrcT + copyT] + out[m * T + copyT..];
    forall q | 0 <= q < |next|
      ensures next[q] == if q < (m + 1) * T then BandMajorCell(mel, T, q) else 0.0
    {
      if m * T <= q < (m + 1) * T {
        DivModUnique(q, T, m, q - m * T);
      }
    }
  }

  /** `System.arraycopy(src, srcPos, dst, dstPos, length)` from a source that is
      not `dst`. */
  method ArrayCopy(src: seq<real>, srcPos: nat, dst: array<real>, dstPos: nat, length: nat)
    requires srcPos + length <= |src| && dstPos + length <= dst.Length
    modifies dst
    ensures dst[..] == old(dst[..])[..dstPos] + src[srcPos..srcPos + length] + old(dst[..])[dstPos + length..]
  {
    ghost var before := dst[..];
    SpliceNone(before, src, srcPos, dstPos);
    for k := 0 to length
      invariant dst[..] == before[..dstPos] + src[srcPos..srcPos + k] + before[dstPos + k..]
    {
      CopyOne(src, srcPos, dst, dstPos, before, k);
    }
  }

  /** Pass `k` of the copy loop: `dst[dstPos + k] = src[srcPos + k]`. */
  method CopyOne(src: seq<real>, srcPos: nat, dst: array<real>, dstPos: nat, ghost before: seq<real>, k: nat)
    requires srcPos + k < |src| && dstPos + k < dst.Length && |before| == dst.Length
    requires dst[..] == before[..dstPos] + src[srcPos..srcPos + k] + before[dstPos + k..]
    modifies dst
    ensures dst[..] == before[..dstPos] + src[srcPos..srcPos + k + 1] + before[dstPos + k + 1..]
  {
    SpliceStep(before, src, srcPos, dstPos, k);
    Put(dst, dstPos + k, src[srcPos + k]);
  }

  /** `dst[i] = v`. */
  method Put(dst: array<real>, i: nat, v: real)
    requires i < dst.Length
    modifies dst
    ensures dst[..] == old(dst[..])[i := v]
  {
    dst[i] := v;
  }

  /** Before any element is written nothing has changed. */
  lemma SpliceNone(before: seq<real>, src: seq<real>, srcPos: nat, dstPos: nat)
    requires srcPos <= |src| && dstPos <= |before|
    ensures before == before[..dstPos] + src[srcPos..srcPos] + before[dstPos..]
  {
    assert src[srcPos..srcPos] == [];
  }

  /** Writing element `k` of the copied range extends the copied part by one. */
  lemma SpliceStep(before: seq<real>, src: seq<real>, srcPos: nat, dstPos: nat, k: nat)
    requires srcPos + k < |src| && dstPos + k < |before|
    ensures (before[..dstPos] + src[srcPos..srcPos + k] + before[dstPos + k..])[dstPos + k := src[srcPos + k]]
            == before[..dstPos] + src[srcPos..srcPos + k + 1] + before[dstPos + k + 1..]
  {
    assert src[srcPos..srcPos + k + 1] == src[srcPos..srcPos + k] + [src[srcPos + k]];
    assert before[dstPos + k..] == [before[dstPos + k]] + before[dstPos + k + 1..];
  }

  /** `mel80x3000_cropTo80xT`: a fresh array of `80*T` zeros, then
      `min(T, 3000)` values of each source row copied to the start of its row. */
  method Mel80x3000CropTo80xT(mel: seq<real>, T: nat) returns (out: seq<real>)
    requires |mel| == MelSize
    ensures out == BandMajor(mel, T)
  {
    var a := new real[Bands * T](_ => 0.0);
    var copyT := Min(T, SrcT);
    for m := 0 to Bands
      invariant BandFilled(a[..], mel, T, m * T)
    {
      CopyRow(mel, a, T, m, copyT);
    }
    out := a[..];
  }

  /** Pass `m` of the crop loop: source row `m` copied to the start of row `m`. */
  method CopyRow(mel: seq<real>, a: array<real>, T: nat, m: nat, copyT: nat)
    requires |mel| == MelSize && a.Length == Bands * T && m < Bands && copyT == Min(T, SrcT)
    requires BandFilled(a[..], mel, T, m * T)
    modifies a
    ensures BandFilled(a[..], mel, T, (m + 1) * T)
  {
    BandStep(a[..], mel, T, m);
    ArrayCopy(mel, m * SrcT, a, m * T, copyT);
  }

  /** The two layouts are transposes of each other. */
  lemma LayoutsTranspose(mel: seq<real>, T: nat, t: nat, m: nat)
    requires |mel| == MelSize && t < T && m < Bands
    ensures t * Bands + m < T * Bands && m * T + t < Bands * T
    ensures TimeMajor(mel, T)[t * Bands + m] == BandMajor(mel, T)[m * T + t]
  {
    TimeMajorAt(mel, T, t, m);
    BandMajorAt(mel, T, m, t);
  }

  /** Cropping to the full 3000 columns gives the matrix back unchanged. */
  lemma CropFullIsIdentity(mel: seq<real>)
    requires |mel| == MelSize
    ensures BandMajor(mel, SrcT) == mel
  {
    forall q | 0 <= q < MelSize
      ensures BandMajor(mel, SrcT)[q] == mel[q]
    {
      DivModUnique(q, SrcT, q / SrcT, q % SrcT);
    }
  }

  // ---------------------------------------------------------------------------
  // The candidate layouts

  /** One entry of `specs`: whether it has a leading batch dimension, whether
      it is time-major, its frame count `T`, and whether the length `T` is
      passed as a second input. Its description only goes to the log. */
  datatype Candidate = Candidate(batched: bool, timeMajor: bool, frames: nat, withLength: bool)

  /** The twelve layouts, in the order `encodeAuto` tries them. */
  const Candidates: seq<Candidate> := [
    Candidate(false, false, 3000, false),  // 80x3000
    Candidate(false, true, 3000, false),  // 3000x80
    Candidate(true, false, 3000, false),  // 1x80x3000
    Candidate(true, true, 3000, false),  // 1x3000x80
    Candidate(false, false, 256, false),  // 80x256
    Candidate(false, true, 256, false),  // 256x80
    Candidate(true, false, 256, false),  // 1x80x256
    Candidate(true, true, 256, false),  // 1x256x80
    Candidate(false, false, 3000, true),  // 80x3000 + len
    Candidate(false, true, 3000, true),  // 3000x80 + len
    Candidate(false, false, 256, true),  // 80x256 + len
    Candidate(false, true, 256, true)   // 256x80 + len
  ]

  /** The number of layouts. */
  const Count: nat := 12

  /** The tensor shape of a candidate. */
  function ShapeOf(c: Candidate): (shape: seq<int>)
    ensures |shape| == if c.batched then 3 else 2
  {
    (if c.batched then [1] else []) + (if c.timeMajor then [c.frames, Bands] else [Bands, c.frames])
  }

  /** The tensor data of a candidate: the matrix itself for the band-major
      3000-column layouts, otherwise the matching helper's result. */
  function DataOf(mel: seq<real>, c: Candidate): (data: seq<real>)
    requires |mel| == MelSize
    ensures |data| == Bands * c.frames
  {
    if c.timeMajor then TimeMajor(mel, c.frames)
    else if c.frames == SrcT then mel
    else BandMajor(mel, c.frames)
  }

  /** What `spec.inputs()` returns: the mel tensor, then the length if asked for. */
  function Inputs(mel: seq<real>, c: Candidate): (inputs: seq<EValue>)
    requires |mel| == MelSize
    ensures |inputs| == if c.withLength then 2 else 1
    ensures inputs[0] == TensorValue(Floats(DataOf(mel, c), ShapeOf(c)))
  {
    [TensorValue(Floats(DataOf(mel, c), ShapeOf(c)))] + (if c.withLength then [LongValue(c.frames)] else [])
  }

  /** Every candidate's data has exactly as many values as its shape holds, and
      the band-major 3000-column data is the matrix itself whichever way it is
      produced. */
  lemma CandidateShapes(mel: seq<real>, i: nat)
    requires |mel| == MelSize && i < |Candidates|
    ensures var c := Candidates[i]; var shape := ShapeOf(c);
      |DataOf(mel, c)| == shape[|shape| - 2] * shape[|shape| - 1]
    ensures var c := Candidates[i]; !c.timeMajor && c.frames == SrcT ==> DataOf(mel, c) == BandMajor(mel, SrcT)
  {
    CropFullIsIdentity(mel);
  }

  /** Of the twelve layouts, exactly `1x80x3000` and `1x80x256` pass
      `validateMelShape`. */
  lemma ValidShapes(i: nat)
    requires i < |Candidates|
    ensures ValidateMelShape(ShapeOf(Candidates[i])) <==> i == 2 || i == 6
  {
  }

  /** `spec.inputs()`, computed with the layout helpers. */
  method BuildInputs(mel: seq<real>, c: Candidate) returns (inputs: seq<EValue>)
    requires |mel| == MelSize
    ensures inputs == Inputs(mel, c)
  {
    var data: seq<real>;
    if c.timeMajor {
      data := Mel80xTToTx80(mel, c.frames);
    } else if c.frames == SrcT {
      data := mel;
    } else {
      data := Mel80x3000CropTo80xT(mel, c.frames);
    }
    inputs := [TensorValue(Floats(data, ShapeOf(c)))];
    if c.withLength {
      inputs := inputs + [LongValue(c.frames)];
    }
  }

  // ---------------------------------------------------------------------------
  // tryEncForward

  /** `Pair<Tensor?, String?>` of `tryEncForward`: a tensor, or an error text. */
  datatype Attempt = Encoded(tensor: Tensor) | Failed(message: string)

  /** `tryEncForward`: the first output's tensor; "empty output" when there is
      none; the class name and message of whatever `forward` or `toTensor`
      throws. A tensor comes back exactly when `firstTensorOrNull` would find one. */
  function TryEncForward(rt: Runtime, h: Handle, inputs: seq<EValue>): (r: Attempt)
    ensures r.Encoded? <==> rt.forward(h, inputs).Returned? && FirstTensorOrNull(rt, rt.forward(h, inputs).outputs).Some?
    ensures r.Encoded? ==> Some(r.tensor) == FirstTensorOrNull(rt, rt.forward(h, inputs).outputs)
    ensures rt.forward(h, inputs) == Returned([]) ==> r == Failed("empty output")
    ensures rt.forward(h, inputs).Threw? ==> r == Failed(Describe(rt.forward(h, inputs).error))
    ensures var out := rt.forward(h, inputs);
      out.Returned? && out.outputs != [] && ToTensor(rt, out.outputs[0]).ConversionError? ==>
        r == Failed(Describe(ToTensor(rt, out.outputs[0]).error))
  {
    match rt.forward(h, inputs)
    case Threw(e) => Failed(Describe(e))
    case Returned(outs) =>
      if outs == [] then Failed("empty output")
      else match ToTensor(rt, outs[0])
        case IsTensor(t) => Encoded(t)
        case ConversionError(e) => Failed(Describe(e))
  }

  // ---------------------------------------------------------------------------
  // encodeAuto

  /** The error text on which `encodeAuto` reloads the encoder. */
  const MidExecution: string := "Inputs can not be set mid execution"

  /** What one `tryEncForward` call means to `encodeAuto`: a tensor, or a
      failure that does or does not name the mid-execution error. */
  datatype Tried = Produced(tensor: Tensor) | Refused(needsReload: bool)

  /** `encodeAuto`'s reading of an `Attempt` (`err ?: "unknown error"` never
      applies: a failed attempt always carries a text). */
  function Classify(a: Attempt): (r: Tried)
    ensures r.Produced? <==> a.Encoded?
    ensures a.Encoded? ==> r.tensor == a.tensor
    ensures a.Failed? ==> r.needsReload == Contains(a.message, MidExecution)
  {
    match a
    case Encoded(t) => Produced(t)
    case Failed(msg) => Refused(Contains(msg, MidExecution))
  }

  /** What `tryEncForward(enc, spec.inputs())` means for a handle and the index
      of a layout. */
  type Attempts = (Handle, nat) -> Tried

  /** The attempts on the matrix `mel` under the runtime `rt`. */
  function AttemptsOn(rt: Runtime, mel: seq<real>): Attempts
    requires |mel| == MelSize
  {
    (h: Handle, i: nat) => if i < |Candidates| then Classify(TryEncForward(rt, h, Inputs(mel, Candidates[i]))) else Refused(false)
  }

  /** One `tryEncForward` call: the handle and the index of the layout. */
  datatype Call = Call(handle: Handle, candidate: nat)

  /** What `encodeAuto` does from some point of its loop on: the tensor it
      returns, the reloaded handle it stores in `whisperEncoder` (if any), the
      number of encoder loads made so far, the handles it destroys and the
      forward calls it makes, in order. */
  datatype Negotiation = Negotiation(result: Option<Tensor>, adopted: Option<Handle>, loads: nat,
                                     destroyed: seq<Handle>, calls: seq<Call>)

  /** `n` with `d` destroyed and `c` called before it. */
  function Logged(d: seq<Handle>, c: seq<Call>, n: Negotiation): (r: Negotiation)
    ensures r.result == n.result && r.adopted == n.adopted && r.loads == n.loads
    ensures r.destroyed == d + n.destroyed && r.calls == c + n.calls
  {
    n.(destroyed := d + n.destroyed, calls := c + n.calls)
  }

  /** What one pass of `encodeAuto`'s loop does on layout `i` with the handle
      `h`: the calls it makes, the handles it destroys, the tensor it returns
      (if any), the local `enc` it leaves and the number of loads made. The
      `k`-th encoder load returns `load(k)`. */
  datatype Round = Round(calls: seq<Call>, destroyed: seq<Handle>, result: Option<Tensor>,
                         enc: Option<Handle>, loads: nat)

  function RoundAt(attempts: Attempts, load: nat -> Option<Handle>, h: Handle, i: nat, loads: nat): Round
  {
    match attempts(h, i)
    case Produced(t) => Round([Call(h, i)], [], Some(t), Some(h), loads)
    case Refused(reload) =>
      if !reload then Round([Call(h, i)], [], None, Some(h), loads)
      else
        var enc2 := load(loads);
        if enc2.None? then Round([Call(h, i)], [h], None, None, loads + 1)
        else
          var second := attempts(enc2.value, i);
          Round([Call(h, i), Call(enc2.value, i)], [h], if second.Produced? then Some(second.tensor) else None,
                enc2, loads + 1)
  }

  /** One pass makes one call on layout `i`, and a second one on that layout
      only after a mid-execution failure, on the handle just loaded. A tensor
      is returned exactly when the last call produced it; every call before
      the last failed. */
  lemma RoundShape(attempts: Attempts, load: nat -> Option<Handle>, h: Handle, i: nat, loads: nat)
    ensures var r := RoundAt(attempts, load, h, i, loads);
      1 <= |r.calls| <= 2 && r.calls[0] == Call(h, i) && r.calls[|r.calls| - 1].candidate == i
    ensures var r := RoundAt(attempts, load, h, i, loads);
      |r.calls| == 2 ==> attempts(h, i) == Refused(true) && load(loads) == Some(r.calls[1].handle) && r.enc == load(loads)
    ensures var r := RoundAt(attempts, load, h, i, loads);
      |r.calls| == 1 && r.result.None? ==> attempts(h, i).Refused?
    ensures var r := RoundAt(attempts, load, h, i, loads);
      r.result.Some? <==> attempts(r.calls[|r.calls| - 1].handle, i).Produced?
    ensures var r := RoundAt(attempts, load, h, i, loads);
      r.result.Some? ==> attempts(r.calls[|r.calls| - 1].handle, i) == Produced(r.result.value)
  {
  }

  /** The loop of `encodeAuto` from layout `i` on, with the local `enc`. */
  function NegotiateFrom(attempts: Attempts, load: nat -> Option<Handle>, enc: Option<Handle>, i: nat, loads: nat): Negotiation
    requires i <= Count
    decreases Count - i
  {
    if i == Count || enc.None? then Negotiation(None, None, loads, [], [])
    else
      var r := RoundAt(attempts, load, enc.value, i, loads);
      if r.result.Some? then Negotiation(r.result, if |r.calls| == 2 then r.enc else None, r.loads, r.destroyed, r.calls)
      else Logged(r.destroyed, r.calls, NegotiateFrom(attempts, load, r.enc, i + 1, r.loads))
  }

  /** One pass of the loop followed by the rest of it. */
  lemma NegotiateStep(attempts: Attempts, load: nat -> Option<Handle>, h: Handle, i: nat, loads: nat)
    requires i < Count
    ensures var r := RoundAt(attempts, load, h, i, loads);
      NegotiateFrom(attempts, load, Some(h), i, loads) ==
        if r.result.Some? then Negotiation(r.result, if |r.calls| == 2 then r.enc else None, r.loads, r.destroyed, r.calls)
        else Logged(r.destroyed, r.calls, NegotiateFrom(attempts, load, r.enc, i + 1, r.loads))
  {
  }

  /** The attempt on layout `i` is `tryEncForward` on that layout's inputs. */
  lemma AttemptOnLayout(rt: Runtime, mel: seq<real>, h: Handle, i: nat)
    requires |mel| == MelSize && i < Count
    ensures AttemptsOn(rt, mel)(h, i) == Classify(TryEncForward(rt, h, Inputs(mel, Candidates[i])))
  {
  }

  /** Without a handle nothing is called or destroyed and nothing is returned;
      with one, the first call is layout `i` on it. */
  lemma NegotiationStart(attempts: Attempts, load: nat -> Option<Handle>, enc: Option<Handle>, i: nat, loads: nat)
    requires i <= Count
    ensures var n := NegotiateFrom(attempts, load, enc, i, loads);
      enc.None? ==> n == Negotiation(None, None, loads, [], [])
    ensures var n := NegotiateFrom(attempts, load, enc, i, loads);
      enc.Some? && i < Count ==> n.calls != [] && n.calls[0] == Call(enc.value, i)
  {
    if enc.Some? && i < Count {
      RoundShape(attempts, load, enc.value, i, loads);
    }
  }

  /** The calls go through the layouts in order, from `i` on. */
  predicate InOrder(calls: seq<Call>, i: nat)
  {
    InRange(calls, i) && Ascending(calls)
  }

  /** Every call is on a layout from `i` on. */
  predicate InRange(calls: seq<Call>, i: nat)
  {
    forall k :: 0 <= k < |calls| ==> i <= calls[k].candidate < Count
  }

  /** No call is on an earlier layout than the call before it. */
  predicate Ascending(calls: seq<Call>)
  {
    forall k :: 0 <= k < |calls| - 1 ==> calls[k].candidate <= calls[k + 1].candidate
  }

  /** `h` is what some encoder load returned. */
  ghost predicate Reloaded(load: nat -> Option<Handle>, h: Handle)
  {
    exists j: nat :: load(j) == Some(h)
  }

  /** A layout is tried twice only after a failure that names the mid-execution
      error, the second time on a freshly loaded handle, right after the first;
      it is never tried a third time. */
  ghost predicate RetriesJustified(attempts: Attempts, load: nat -> Option<Handle>, calls: seq<Call>)
  {
    forall k :: 0 <= k < |calls| - 1 ==> JustifiedAt(attempts, load, calls, k)
  }

  /** Call `k` is not followed by a repeat of its layout, or it failed naming
      the mid-execution error and the repeat is the only one, on a reloaded
      handle. */
  ghost predicate JustifiedAt(attempts: Attempts, load: nat -> Option<Handle>, calls: seq<Call>, k: nat)
    requires k < |calls| - 1
  {
    calls[k].candidate == calls[k + 1].candidate ==>
      (Reloaded(load, calls[k + 1].handle) && attempts(calls[k].handle, calls[k].candidate) == Refused(true)
      && (k + 2 < |calls| ==> calls[k + 1].candidate < calls[k + 2].candidate))
  }

  /** The order of the calls `encodeAuto` makes: layouts in order from `i`,
      each at most twice, a repeat only as the retry after a reload. */
  lemma {:induction false} NegotiationOrder(attempts: Attempts, load: nat -> Option<Handle>,
                                            enc: Option<Handle>, i: nat, loads: nat)
    requires i <= Count
    ensures var n := NegotiateFrom(attempts, load, enc, i, loads);
      InOrder(n.calls, i) && RetriesJustified(attempts, load, n.calls)
    decreases Count - i
  {
    if i < Count && enc.Some? {
      var r := RoundAt(attempts, load, enc.value, i, loads);
      if r.result.None? {
        var rest := NegotiateFrom(attempts, load, r.enc, i + 1, r.loads);
        NegotiationOrder(attempts, load, r.enc, i + 1, r.loads);
        OrderStep(attempts, load, enc.value, i, loads, rest.calls);
      } else {
        OrderStep(attempts, load, enc.value, i, loads, []);
        assert r.calls + [] == r.calls;
      }
    }
  }

  /** The calls of one pass on layout `i`, before calls from layout `i + 1`
      on, keep the order and justify any repeat. */
  lemma OrderStep(attempts: Attempts, load: nat -> Option<Handle>, h: Handle, i: nat, loads: nat, rest: seq<Call>)
    requires i < Count && InOrder(rest, i + 1) && RetriesJustified(attempts, load, rest)
    ensures var r := RoundAt(attempts, load, h, i, loads);
      InOrder(r.calls + rest, i) && RetriesJustified(attempts, load, r.calls + rest)
  {
    var r := RoundAt(attempts, load, h, i, loads);
    RoundShape(attempts, load, h, i, loads);
    if |r.calls| == 1 {
      assert r.calls + rest == [r.calls[0]] + rest;
      OrderCons(attempts, load, r.calls[0], rest, i);
    } else {
      assert Reloaded(load, r.calls[1].handle) by { assert load(loads) == Some(r.calls[1].handle); }
      OrderCons(attempts, load, r.calls[1], rest, i);
      RetryCons(attempts, load, r.calls[0], [r.calls[1]] + rest);
      PairCons(r.calls, rest);
    }
  }

  lemma PairCons(pair: seq<Call>, rest: seq<Call>)
    requires |pair| == 2
    ensures pair + rest == [pair[0]] + ([pair[1]] + rest)
  {
    assert pair == [pair[0]] + [pair[1]];
  }

  /** Putting a call on layout `i` before calls from layout `i + 1` on keeps
      the order, and adds no repeated layout. */
  lemma OrderCons(attempts: Attempts, load: nat -> Option<Handle>, c: Call, rest: seq<Call>, i: nat)
    requires i < Count && c.candidate == i
    requires InOrder(rest, i + 1) && RetriesJustified(attempts, load, rest)
    ensures InOrder([c] + rest, i) && RetriesJustified(attempts, load, [c] + rest)
  {
    RangeCons(c, rest, i + 1, i);
    AscendingCons(c, rest);
    JustifiedCons(attempts, load, c, rest);
  }

  /** Putting a failed mid-execution call before its retry keeps the order and
      justifies the repeat. */
  lemma RetryCons(attempts: Attempts, load: nat -> Option<Handle>, c: Call, rest: seq<Call>)
    requires c.candidate < Count && rest != []
    requires rest[0].candidate == c.candidate && Reloaded(load, rest[0].handle)
    requires attempts(c.handle, c.candidate) == Refused(true)
    requires InOrder(rest, c.candidate) && RetriesJustified(attempts, load, rest)
    requires |rest| > 1 ==> rest[0].candidate < rest[1].candidate
    ensures InOrder([c] + rest, c.candidate) && RetriesJustified(attempts, load, [c] + rest)
  {
    RangeCons(c, rest, c.candidate, c.candidate);
    AscendingCons(c, rest);
    JustifiedRetry(attempts, load, c, rest);
  }

  lemma RangeCons(c: Call, rest: seq<Call>, j: nat, i: nat)
    requires i <= j && i <= c.candidate < Count && InRange(rest, j)
    ensures InRange([c] + rest, i)
  {
    var calls := [c] + rest;
    forall k | 1 <= k < |calls|
      ensures i <= calls[k].candidate < Count
    {
      assert calls[k] == rest[k - 1];
    }
  }

  lemma AscendingCons(c: Call, rest: seq<Call>)
    requires Ascending(rest) && (rest != [] ==> c.candidate <= rest[0].candidate)
    ensures Ascending([c] + rest)
  {
    var calls := [c] + rest;
    forall k | 1 <= k < |calls| - 1
      ensures calls[k].candidate <= calls[k + 1].candidate
    {
      assert calls[k] == rest[k - 1] && calls[k + 1] == rest[k];
    }
  }

  lemma JustifiedCons(attempts: Attempts, load: nat -> Option<Handle>, c: Call, rest: seq<Call>)
    requires RetriesJustified(attempts, load, rest) && (rest != [] ==> c.candidate < rest[0].candidate)
    ensures RetriesJustified(attempts, load, [c] + rest)
  {
    var calls := [c] + rest;
    forall k | 1 <= k < |calls| - 1
      ensures JustifiedAt(attempts, load, calls, k)
    {
      JustifiedShift(attempts, load, c, rest, k);
    }
  }

  lemma JustifiedRetry(attempts: Attempts, load: nat -> Option<Handle>, c: Call, rest: seq<Call>)
    requires rest != [] && rest[0].candidate == c.candidate && Reloaded(load, rest[0].handle)
    requires attempts(c.handle, c.candidate) == Refused(true)
    requires |rest| > 1 ==> rest[0].candidate < rest[1].candidate
    requires RetriesJustified(attempts, load, rest)
    ensures RetriesJustified(attempts, load, [c] + rest)
  {
    var calls := [c] + rest;
    forall k | 1 <= k < |calls| - 1
      ensures JustifiedAt(attempts, load, calls, k)
    {
      JustifiedShift(attempts, load, c, rest, k);
    }
    assert calls[1] == rest[0];
    if |calls| > 2 {
      assert calls[2] == rest[1];
    }
  }

  /** Putting a call in front moves each later call's justification one place on. */
  lemma JustifiedShift(attempts: Attempts, load: nat -> Option<Handle>, c: Call, rest: seq<Call>, k: nat)
    requires 1 <= k < |rest| && RetriesJustified(attempts, load, rest)
    ensures JustifiedAt(attempts, load, [c] + rest, k)
  {
    var calls := [c] + rest;
    assert JustifiedAt(attempts, load, rest, k - 1);
    assert calls[k] == rest[k - 1] && calls[k + 1] == rest[k];
    if k + 2 < |calls| {
      assert calls[k + 2] == rest[k + 1];
    }
  }

  /** No call skips a layout: each call is on the layout of the call before
      it or on the next one. */
  predicate NoSkip(calls: seq<Call>)
  {
    forall k :: 0 <= k < |calls| - 1 ==> calls[k + 1].candidate <= calls[k].candidate + 1
  }

  /** `encodeAuto` goes through the layouts one after the other from `i`: its
      first call is on layout `i`, and no layout is skipped. */
  lemma {:induction false} NegotiationNoSkip(attempts: Attempts, load: nat -> Option<Handle>,
                                             enc: Option<Handle>, i: nat, loads: nat)
    requires i <= Count
    ensures var n := NegotiateFrom(attempts, load, enc, i, loads);
      NoSkip(n.calls) && (n.calls != [] ==> n.calls[0].candidate == i)
    decreases Count - i
  {
    if i < Count && enc.Some? {
      var r := RoundAt(attempts, load, enc.value, i, loads);
      var n := NegotiateFrom(attempts, load, enc, i, loads);
      RoundShape(attempts, load, enc.value, i, loads);
      assert NoSkip(r.calls);
      if r.result.Some? {
        assert n.calls == r.calls;
      } else {
        var rest := NegotiateFrom(attempts, load, r.enc, i + 1, r.loads);
        assert n.calls == r.calls + rest.calls;
        NegotiationNoSkip(attempts, load, r.enc, i + 1, r.loads);
        NoSkipAppend(r.calls, rest.calls);
        assert n.calls[0] == r.calls[0];
      }
    }
  }

  lemma NoSkipAppend(a: seq<Call>, b: seq<Call>)
    requires a != [] && NoSkip(a) && NoSkip(b)
    requires b != [] ==> b[0].candidate <= a[|a| - 1].candidate + 1
    ensures NoSkip(a + b)
  {
    forall k | 0 <= k < |a + b| - 1
      ensures (a + b)[k + 1].candidate <= (a + b)[k].candidate + 1
    {
      if k + 1 < |a| {
        assert (a + b)[k] == a[k] && (a + b)[k + 1] == a[k + 1];
      } else if k + 1 == |a| {
        assert (a + b)[k] == a[|a| - 1] && (a + b)[k + 1] == b[0];
      } else {
        assert (a + b)[k] == b[k - |a|] && (a + b)[k + 1] == b[k - |a| + 1];
      }
    }
  }

  /** `n` made a call, and if it returned null its last call was on the last
      layout or the encoder load it made last failed. */
  ghost predicate TriedToEnd(load: nat -> Option<Handle>, n: Negotiation)
  {
    n.calls != [] &&
    (n.result.None? ==>
      n.calls[|n.calls| - 1].candidate == Count - 1 || (n.loads >= 1 && load(n.loads - 1).None?))
  }

  /** With a handle and a layout left, `encodeAuto` returns null only after
      trying the last layout, or when the encoder load it made last failed.
      So when loads succeed, every layout from `i` on is tried until one
      produces a tensor. */
  lemma {:induction false} NegotiationExhausts(attempts: Attempts, load: nat -> Option<Handle>,
                                               enc: Option<Handle>, i: nat, loads: nat)
    requires i < Count && enc.Some?
    ensures TriedToEnd(load, NegotiateFrom(attempts, load, enc, i, loads))
    decreases Count - i
  {
    var r := RoundAt(attempts, load, enc.value, i, loads);
    var n := NegotiateFrom(attempts, load, enc, i, loads);
    RoundShape(attempts, load, enc.value, i, loads);
    if r.result.Some? {
      assert n.calls == r.calls && n.result.Some?;
    } else {
      var rest := NegotiateFrom(attempts, load, r.enc, i + 1, r.loads);
      assert n == Logged(r.destroyed, r.calls, rest);
      if r.enc.Some? && i + 1 < Count {
        NegotiationExhausts(attempts, load, r.enc, i + 1, r.loads);
      } else {
        assert rest.calls == [] && rest.loads == r.loads;
      }
      TriedAfterRound(load, n, r.calls, rest, i, loads);
    }
  }

  /** A pass whose calls end on layout `i`, followed by the rest of the loop:
      the rest either made calls and tried to the end, or stopped at once
      because the layouts ran out or the reload failed. */
  lemma TriedAfterRound(load: nat -> Option<Handle>, n: Negotiation, first: seq<Call>,
                        rest: Negotiation, i: nat, loads: nat)
    requires first != [] && first[|first| - 1].candidate == i
    requires n.calls == first + rest.calls && n.loads == rest.loads && n.result == rest.result
    requires rest.calls != [] ==> TriedToEnd(load, rest)
    requires rest.calls == [] ==> i == Count - 1 || (rest.loads == loads + 1 && load(loads).None?)
    ensures TriedToEnd(load, n)
  {
    if rest.calls != [] {
      assert n.calls[|n.calls| - 1] == rest.calls[|rest.calls| - 1];
    } else {
      assert n.calls == first;
    }
  }

  /** When every encoder load succeeds, a search that returns null has tried
      the last layout; with `NegotiationNoSkip`, it has tried every layout
      from `i` on. */
  lemma NegotiationTriesAll(attempts: Attempts, load: nat -> Option<Handle>,
                            enc: Option<Handle>, i: nat, loads: nat)
    requires i < Count && enc.Some? && forall j :: load(j).Some?
    ensures var n := NegotiateFrom(attempts, load, enc, i, loads);
      n.result.None? ==> n.calls != [] && n.calls[|n.calls| - 1].candidate == Count - 1
  {
    NegotiationExhausts(attempts, load, enc, i, loads);
    assert TriedToEnd(load, NegotiateFrom(attempts, load, enc, i, loads));
  }

  /** The outcome of the last call is what `encodeAuto` returns, and every
      earlier call failed. A reloaded handle is stored exactly when the retry
      after a reload succeeds, and it is the handle of that last call. */
  ghost predicate ResultOfLastCall(attempts: Attempts, n: Negotiation)
  {
    RefusedBefore(attempts, n.calls, |n.calls| - 1) &&
    n.result == LastTensor(attempts, n.calls) &&
    n.adopted == RetriedHandle(n.calls, n.result)
  }

  /** The tensor of the last call, if it produced one. */
  ghost function LastTensor(attempts: Attempts, calls: seq<Call>): Option<Tensor>
  {
    if calls == [] then None
    else match attempts(calls[|calls| - 1].handle, calls[|calls| - 1].candidate)
      case Produced(t) => Some(t)
      case Refused(_) => None
  }

  /** The handle of the last call when a tensor came back and that call was
      the retry of the layout before it. */
  function RetriedHandle(calls: seq<Call>, result: Option<Tensor>): Option<Handle>
  {
    if result.Some? && |calls| >= 2 && calls[|calls| - 2].candidate == calls[|calls| - 1].candidate
    then Some(calls[|calls| - 1].handle)
    else None
  }

  /** Each of the first `m` calls failed. */
  ghost predicate RefusedBefore(attempts: Attempts, calls: seq<Call>, m: int)
  {
    forall k :: 0 <= k < m && k < |calls| ==> attempts(calls[k].handle, calls[k].candidate).Refused?
  }

  /** `encodeAuto` returns the first tensor any call produces: the last call's. */
  lemma {:induction false} NegotiationResult(attempts: Attempts, load: nat -> Option<Handle>,
                                             enc: Option<Handle>, i: nat, loads: nat)
    requires i <= Count
    ensures ResultOfLastCall(attempts, NegotiateFrom(attempts, load, enc, i, loads))
    decreases Count - i, 1
  {
    if i < Count && enc.Some? {
      if RoundAt(attempts, load, enc.value, i, loads).result.None? {
        ResultLater(attempts, load, enc, i, loads);
      } else {
        ResultNow(attempts, load, enc, i, loads);
      }
    } else {
      ResultNone(attempts, load, enc, i, loads);
    }
  }

  /** Without a handle or past the last layout nothing is called. */
  lemma ResultNone(attempts: Attempts, load: nat -> Option<Handle>, enc: Option<Handle>, i: nat, loads: nat)
    requires i <= Count && (i == Count || enc.None?)
    ensures ResultOfLastCall(attempts, NegotiateFrom(attempts, load, enc, i, loads))
  {
  }

  /** A negotiation whose first pass returns nothing has the result of the
      rest. */
  lemma {:induction false} ResultLater(attempts: Attempts, load: nat -> Option<Handle>, enc: Option<Handle>, i: nat, loads: nat)
    requires i < Count && enc.Some? && RoundAt(attempts, load, enc.value, i, loads).result.None?
    ensures ResultOfLastCall(attempts, NegotiateFrom(attempts, load, enc, i, loads))
    decreases Count - i, 0
  {
    var r := RoundAt(attempts, load, enc.value, i, loads);
    NegotiationResult(attempts, load, r.enc, i + 1, r.loads);
    NegotiationOrder(attempts, load, r.enc, i + 1, r.loads);
    ResultStep(attempts, load, enc.value, i, loads);
  }

  /** A negotiation whose first pass returns a tensor ends with it. */
  lemma ResultNow(attempts: Attempts, load: nat -> Option<Handle>, enc: Option<Handle>, i: nat, loads: nat)
    requires i < Count && enc.Some? && RoundAt(attempts, load, enc.value, i, loads).result.Some?
    ensures ResultOfLastCall(attempts, NegotiateFrom(attempts, load, enc, i, loads))
  {
    NegotiateStep(attempts, load, enc.value, i, loads);
    ResultFinal(attempts, load, enc.value, i, loads);
  }

  /** A pass that returns a tensor ends the negotiation with its last call. */
  lemma ResultFinal(attempts: Attempts, load: nat -> Option<Handle>, h: Handle, i: nat, loads: nat)
    requires RoundAt(attempts, load, h, i, loads).result.Some?
    ensures var r := RoundAt(attempts, load, h, i, loads);
      ResultOfLastCall(attempts, Negotiation(r.result, if |r.calls| == 2 then r.enc else None, r.loads, r.destroyed, r.calls))
  {
    RoundShape(attempts, load, h, i, loads);
  }

  /** A pass that returns nothing keeps the result of the calls after it. */
  lemma ResultStep(attempts: Attempts, load: nat -> Option<Handle>, h: Handle, i: nat, loads: nat)
    requires i < Count
    requires var r := RoundAt(attempts, load, h, i, loads);
      r.result.None? && InOrder(NegotiateFrom(attempts, load, r.enc, i + 1, r.loads).calls, i + 1)
    requires var r := RoundAt(attempts, load, h, i, loads);
      ResultOfLastCall(attempts, NegotiateFrom(attempts, load, r.enc, i + 1, r.loads))
    ensures ResultOfLastCall(attempts, NegotiateFrom(attempts, load, Some(h), i, loads))
  {
    var r := RoundAt(attempts, load, h, i, loads);
    var rest := NegotiateFrom(attempts, load, r.enc, i + 1, r.loads);
    NegotiateStep(attempts, load, h, i, loads);
    RoundShape(attempts, load, h, i, loads);
    ResultCons(attempts, r.calls, rest, i, r.destroyed);
  }

  /** Failed calls on layout `i` placed before the calls from layout `i + 1` on
      keep the result of the last call. */
  lemma ResultCons(attempts: Attempts, pre: seq<Call>, rest: Negotiation, i: nat, d: seq<Handle>)
    requires |pre| > 0 && InOrder(rest.calls, i + 1) && ResultOfLastCall(attempts, rest)
    requires forall k :: 0 <= k < |pre| ==> pre[k].candidate == i && attempts(pre[k].handle, pre[k].candidate).Refused?
    ensures ResultOfLastCall(attempts, Logged(d, pre, rest))
  {
    var calls := pre + rest.calls;
    assert forall k :: |pre| <= k < |calls| ==> calls[k] == rest.calls[k - |pre|];
    if |rest.calls| == 1 {
      assert calls[|calls| - 2] == pre[|pre| - 1];
    }
  }
}
