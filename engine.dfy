/** ExecuTorchSafe.kt: the shape check for a Whisper mel input and the
    classification of a forward call's outcome, over an abstract ExecuTorch
    runtime. A `Module` is an opaque handle; `Module.forward`, `loadMethod` and
    `EValue.toTensor`'s failure are functions of the runtime. */
module Engine {
  import opened Wrappers

  /** A loaded `Module`, known only by its identity. */
  type Handle = nat

  /** A `Throwable`: the simple name of its class and its nullable message. */
  datatype Exception = Exception(className: string, message: Option<string>)

  /** A `Tensor`: float or int32 data with its shape. */
  datatype Tensor =
    | Floats(values: seq<real>, shape: seq<int>)
    | Ints(ids: seq<int>, shape: seq<int>)
  {
    function Shape(): seq<int>
    {
      match this
      case Floats(_, s) => s
      case Ints(_, s) => s
    }
  }

  /** An `EValue`: a tensor, a 64-bit integer, or some other kind of value. */
  datatype EValue = TensorValue(tensor: Tensor) | LongValue(n: int) | OtherValue(kind: string)

  /** What one `Module.forward` call does: it throws, or it returns an output array. */
  datatype Outcome = Threw(error: Exception) | Returned(outputs: seq<EValue>)

  /** The runtime: what `forward` does for a module and an input array, what
      `loadMethod` throws (if anything), and what `toTensor` throws on a value
      that is not a tensor. */
  datatype Runtime = Runtime(
    forward: (Handle, seq<EValue>) -> Outcome,
    loadMethod: (Handle, string) -> Option<Exception>,
    toTensorError: EValue -> Exception)

  /** `Code` of an `InferenceResult.Error`. */
  datatype Code = NotLoaded | BadInput | EmptyOutput | RuntimeError

  /** `InferenceResult`; the `cause` of an error is not kept. */
  datatype InferenceResult = Success(outputs: seq<EValue>) | Error(code: Code, message: string)

  /** `validateMelShape`: the Whisper encoder input `[1, 80, N]` with `N > 0`. */
  function ValidateMelShape(shape: seq<int>): (ok: bool)
    ensures ok <==> |shape| == 3 && shape == [1, 80, shape[2]] && shape[2] > 0
    ensures ok ==> shape[2] >= 1
  {
    |shape| == 3 && shape[0] == 1 && shape[1] == 80 && shape[2] > 0
  }

  /** A nullable message, or `fallback` when it is null (`?:`, and also what
      string interpolation prints for null with `fallback == "null"`). */
  function MessageOr(message: Option<string>, fallback: string): (s: string)
    ensures message.Some? ==> s == message.value
    ensures message.None? ==> s == fallback
  {
    match message
    case Some(m) => m
    case None => fallback
  }

  /** `"${e.javaClass.simpleName}: ${e.message}"`. */
  function Describe(e: Exception): (s: string)
    ensures |s| >= |e.className| + 2 && s[..|e.className|] == e.className
    ensures s[|e.className|..|e.className| + 2] == ": "
    ensures s[|e.className| + 2..] == MessageOr(e.message, "null")
  {
    e.className + ": " + MessageOr(e.message, "null")
  }

  /** What `toTensor` does on one value: the tensor, or the exception it throws. */
  datatype Conversion = IsTensor(tensor: Tensor) | ConversionError(error: Exception)

  function ToTensor(rt: Runtime, v: EValue): (c: Conversion)
    ensures c.IsTensor? <==> v.TensorValue?
    ensures c.IsTensor? ==> c.tensor == v.tensor
  {
    if v.TensorValue? then IsTensor(v.tensor) else ConversionError(rt.toTensorError(v))
  }

  /** `forwardBlocking`: a missing module and an empty input list are reported
      before anything is run, in that order; then the outcome of `forward` is
      classified. The `loadMethod` call before it is wrapped in `runCatching`,
      so whatever it does is dropped. */
  function ForwardBlocking(rt: Runtime, m: Option<Handle>, inputs: seq<EValue>, methodName: Option<string>): (r: InferenceResult)
    ensures r.Error? && r.code == NotLoaded <==> m.None?
    ensures r.Error? && r.code == BadInput <==> m.Some? && inputs == []
    ensures r.Error? && r.code == EmptyOutput <==>
              m.Some? && inputs != [] && rt.forward(m.value, inputs) == Returned([])
    ensures r.Error? && r.code == RuntimeError <==>
              m.Some? && inputs != [] && rt.forward(m.value, inputs).Threw?
    ensures r.Success? ==> m.Some? && r.outputs == rt.forward(m.value, inputs).outputs && r.outputs != []
  {
    if m.None? then Error(NotLoaded, "Module == null")
    else if inputs == [] then Error(BadInput, "No inputs")
    else match rt.forward(m.value, inputs)
      case Threw(e) => Error(RuntimeError, MessageOr(e.message, "Unknown"))
      case Returned(outs) => if outs == [] then Error(EmptyOutput, "No outputs") else Success(outs)
  }

  /** A thrown `forward` is reported with its message, or "Unknown" when it has none. */
  lemma RuntimeMessage(rt: Runtime, h: Handle, inputs: seq<EValue>, methodName: Option<string>)
    requires inputs != [] && rt.forward(h, inputs).Threw?
    ensures var e := rt.forward(h, inputs).error;
      ForwardBlocking(rt, Some(h), inputs, methodName) == Error(RuntimeError, if e.message.Some? then e.message.value else "Unknown")
  {
  }

  /** Without a module, or without inputs, `forward` is never consulted: the
      result is the same whatever the runtime does. Neither `loadMethod` nor the
      method name ever changes the result. */
  lemma ForwardNotConsulted(rt1: Runtime, rt2: Runtime, m: Option<Handle>, inputs: seq<EValue>,
                            n1: Option<string>, n2: Option<string>)
    ensures m.None? || inputs == [] ==> ForwardBlocking(rt1, m, inputs, n1) == ForwardBlocking(rt2, m, inputs, n2)
    ensures rt1.forward == rt2.forward ==> ForwardBlocking(rt1, m, inputs, n1) == ForwardBlocking(rt2, m, inputs, n2)
  {
  }

  /** `firstTensorOrNull`: the first output's tensor; null for an empty array
      and when the conversion throws. */
  function FirstTensorOrNull(rt: Runtime, outputs: seq<EValue>): (r: Option<Tensor>)
    ensures outputs == [] ==> r.None?
    ensures r.Some? <==> outputs != [] && outputs[0].TensorValue?
    ensures r.Some? ==> r.value == outputs[0].tensor
  {
    if outputs == [] then None
    else match ToTensor(rt, outputs[0])
      case IsTensor(t) => Some(t)
      case ConversionError(_) => None
  }
}
