/** `PreOrPostTransitionSequence`: the actions run before or after a transition,
    each handed the value the previous one left. */
module Callbacks {
  import opened Exceptions
  import opened Wrappers

  /** A Python value as far as `json.dumps` is concerned. */
  datatype Value =
    | Serialisable(text: string)
    | Unserialisable(tag: nat, typeError: bool)

  /** One call of an action's method. */
  datatype Outcome = Returned(value: Value) | Raised(exn: Exn)

  datatype Callback = Callback(method_: Value -> Outcome, mandatory: bool)
  {
    /** What a run of this callback leaves behind: the value handed on, and the
        exception that ends the sequence, if any. A value that is not
        serialisable is handed on even when the complaint about it is ignored. */
    function Effect(v: Value): (Value, Option<Exn>) {
      match method_(v)
      case Returned(w) =>
        (w, match w
            case Serialisable(_) => None
            case Unserialisable(_, true) => if mandatory then Some(Drunc) else None
            case Unserialisable(_, false) => Some(Unhandled))
      case Raised(Drunc) => (v, if mandatory then Some(Drunc) else None)
      case Raised(Unhandled) => (v, Some(Unhandled))
    }
  }

  /** The value handed to callback `k`, were no earlier one to end the sequence. */
  function Input(cbs: seq<Callback>, start: Value, k: nat): Value
    requires k <= |cbs|
  {
    if k == 0 then start else cbs[k - 1].Effect(Input(cbs, start, k - 1)).0
  }

  predicate Returns(cbs: seq<Callback>, start: Value, k: nat)
    requires k < |cbs|
  {
    cbs[k].method_(Input(cbs, start, k)).Returned?
  }

  predicate Stops(cbs: seq<Callback>, start: Value, k: nat)
    requires k < |cbs|
  {
    cbs[k].Effect(Input(cbs, start, k)).1.Some?
  }

  /** `json.dumps` of the final value: any failure here is not a DruncException. */
  function Dumps(v: Value): Result<string, Exn> {
    if v.Serialisable? then Ok(v.text) else Err(Unhandled)
  }

  /** Every callback is handed the last value returned before it, or the
      initial one when none was. */
  lemma {:induction false} InputIsLastReturned(cbs: seq<Callback>, start: Value, j: nat, k: nat)
    requires j < k <= |cbs|
    requires forall i :: j < i < k ==> !Returns(cbs, start, i)
    ensures Returns(cbs, start, j) ==> Input(cbs, start, k) == cbs[j].method_(Input(cbs, start, j)).value
    ensures !Returns(cbs, start, j) ==> Input(cbs, start, k) == Input(cbs, start, j)
    decreases k
  {
    if j + 1 < k {
      InputIsLastReturned(cbs, start, j, k - 1);
      assert !Returns(cbs, start, k - 1);
    }
  }

  /** Only two things end a sequence: a mandatory callback meeting a
      DruncException (raised, or provoked by its result), or any callback
      meeting another exception. An optional DruncException never does. */
  lemma StopsIff(cbs: seq<Callback>, start: Value, k: nat)
    requires k < |cbs|
    ensures Stops(cbs, start, k) <==>
              var r := cbs[k].method_(Input(cbs, start, k));
              || r == Raised(Unhandled)
              || (r.Returned? && r.value.Unserialisable? && !r.value.typeError)
              || (cbs[k].mandatory && (r == Raised(Drunc) || (r.Returned? && r.value.Unserialisable? && r.value.typeError)))
  {
    match cbs[k].method_(Input(cbs, start, k))
    case Returned(w) =>
    case Raised(e) =>
  }

  /** How a run ends. Stopped, with the exception met: that of a mandatory
      callback is a DruncException, any other is not. Otherwise with the text of
      the value the last callback left, or an exception if it has none. */
  lemma RanEndsWith(cbs: seq<Callback>, start: Value, calls: seq<Value>, result: Result<string, Exn>)
    requires Ran(cbs, start, calls, result)
    ensures if |calls| > 0 && Stops(cbs, start, |calls| - 1) then
              var last := cbs[|calls| - 1];
              var r := last.method_(calls[|calls| - 1]);
              result == if r == Raised(Unhandled) || (r.Returned? && !r.value.typeError) then Err(Unhandled) else Err(Drunc)
            else
              && |calls| == |cbs|
              && result == match Input(cbs, start, |cbs|)
                           case Serialisable(text) => Ok(text)
                           case Unserialisable(_, _) => Err(Unhandled)
  {
    if |calls| > 0 && Stops(cbs, start, |calls| - 1) {
      StopsIff(cbs, start, |calls| - 1);
    }
  }

  /** The start value: an empty string counts as an empty JSON object. None is
      unreadable JSON; reporting it fails in the exception's own constructor. */
  function Loads(parse: string -> Option<Value>, data: string): Option<Value> {
    parse(if data == "" then "{}" else data)
  }

  class TransitionSequence {
    var sequence: seq<Callback>

    constructor ()
      ensures sequence == []
    {
      sequence := [];
    }

    method AddCallback(method_: Value -> Outcome, mandatory: bool)
      modifies this
      ensures sequence == old(sequence) + [Callback(method_, mandatory)]
    {
      sequence := sequence + [Callback(method_, mandatory)];
    }

    /** Runs exactly the prefix of callbacks ending at the first that stops the
        sequence, or all of them. `calls` lists what each was called with. */
    method Execute(parse: string -> Option<Value>, data: string)
      returns (result: Result<string, Exn>, calls: seq<Value>)
      ensures Loads(parse, data) == None ==> result == Err(Unhandled) && calls == []
      ensures Loads(parse, data).Some? ==> Ran(sequence, Loads(parse, data).value, calls, result)
      ensures var start := parse(if data == "" then "{}" else data);
              match start
              case None => result == Err(Unhandled) && calls == []
              case Some(v) =>
                if sequence != [] then calls != [] && calls[0] == v
                else calls == [] && result == if v.Serialisable? then Ok(v.text) else Err(Unhandled)
    {
      calls := [];
      var loaded := Loads(parse, data);
      if loaded == None {
        return Err(Unhandled), [];
      }
      result, calls := RunFrom(sequence, loaded.value);
    }
  }

  /** `calls` holds the inputs of an initial run of callbacks none of which but
      the last stops the sequence, and the run is cut short only by a stop. */
  predicate Ran(cbs: seq<Callback>, start: Value, calls: seq<Value>, result: Result<string, Exn>) {
    && |calls| <= |cbs|
    && (forall k :: 0 <= k < |calls| ==> calls[k] == Input(cbs, start, k))
    && (forall k :: 0 <= k < |calls| - 1 ==> !Stops(cbs, start, k))
    && (|calls| < |cbs| ==> |calls| > 0 && Stops(cbs, start, |calls| - 1))
    && result ==
         if |calls| > 0 && Stops(cbs, start, |calls| - 1)
         then Err(cbs[|calls| - 1].Effect(calls[|calls| - 1]).1.value)
         else Dumps(Input(cbs, start, |cbs|))
  }

  /** There is only one such run: what is called, with what, and how it ends
      are all settled by the callbacks and the start value. */
  lemma RanIsUnique(cbs: seq<Callback>, start: Value, calls: seq<Value>, result: Result<string, Exn>,
                    calls': seq<Value>, result': Result<string, Exn>)
    requires Ran(cbs, start, calls, result) && Ran(cbs, start, calls', result')
    ensures calls == calls' && result == result'
  {
    assert |calls| == |calls'|;
    assert calls == calls';
  }

  method RunFrom(cbs: seq<Callback>, start: Value) returns (result: Result<string, Exn>, calls: seq<Value>)
    ensures Ran(cbs, start, calls, result)
  {
    calls := [];
    var inputData := start;
    for k := 0 to |cbs|
      invariant inputData == Input(cbs, start, k)
      invariant Unstopped(cbs, start, calls) && |calls| == k
    {
      calls := calls + [inputData];
      var effect := cbs[k].Effect(inputData);
      assert effect.1.Some? <==> Stops(cbs, start, k);
      assert Input(cbs, start, k + 1) == effect.0;
      if effect.1.Some? {
        return Err(effect.1.value), calls;
      }
      inputData := effect.0;
    }
    result := Dumps(inputData);
  }

  /** Every callback called so far was handed its input and let the sequence go on. */
  predicate Unstopped(cbs: seq<Callback>, start: Value, calls: seq<Value>) {
    && |calls| <= |cbs|
    && forall k :: 0 <= k < |calls| ==> calls[k] == Input(cbs, start, k) && !Stops(cbs, start, k)
  }
}
