/** Arguments of a transition: `validate_and_format_fsm_arguments` on the client
    and `decode_fsm_arguments` on the server. */
module Arguments {
  import opened Wrappers

  datatype Kind = Int | Float | String | Bool | Other

  /** What the user typed, and what a message carries. Both stay abstract. */
  type Raw = string
  type Scalar = string

  /** A protobuf Any: never set, or one packed scalar message. */
  datatype Packet = Unset | Packed(kind: Kind, value: Scalar)

  datatype Argument = Argument(name: string, mandatory: bool, kind: Kind, defaultValue: Packet)

  datatype ArgumentError = DuplicateArgument | MissingArgument | InvalidArgumentType | UnhandledArgumentType | UnpackingError | TypeError

  /** The conversions `int`, `float` and the message constructors, and Python's
      truth of a value. */
  datatype Reader = Reader(coerce: (Kind, Raw) -> Option<Scalar>, truthy: Raw -> bool)

  type Given = map<string, Option<Raw>>

  predicate Supplied(given: Given, d: Argument) {
    d.name in given && given[d.name].Some?
  }

  // ---- client side -------------------------------------------------------

  /** Building a text message is the one conversion not guarded. */
  function NotConvertible(kind: Kind): ArgumentError {
    if kind == String then TypeError else InvalidArgumentType
  }

  function FormatOne(rd: Reader, given: Given, d: Argument, out: map<string, Packet>): Result<map<string, Packet>, ArgumentError> {
    if d.name in out then Err(DuplicateArgument)
    else if d.mandatory && d.name !in given then Err(MissingArgument)
    else if !Supplied(given, d) then Ok(out[d.name := d.defaultValue])
    else if d.kind == Other then Err(UnhandledArgumentType)
    else match rd.coerce(d.kind, given[d.name].value)
      case None => Err(NotConvertible(d.kind))
      case Some(v) => Ok(out[d.name := Packed(d.kind, v)])
  }

  function FormatPrefix(rd: Reader, given: Given, descs: seq<Argument>, k: nat): Result<map<string, Packet>, ArgumentError>
    requires k <= |descs|
  {
    if k == 0 then Ok(map[])
    else match FormatPrefix(rd, given, descs, k - 1)
      case Err(e) => Err(e)
      case Ok(out) => FormatOne(rd, given, descs[k - 1], out)
  }

  /** Reads the caller's dictionary as it was given. */
  function Format(rd: Reader, given: Given, descs: seq<Argument>): Result<map<string, Packet>, ArgumentError> {
    if given == map[] then Ok(map[]) else FormatPrefix(rd, given, descs, |descs|)
  }

  predicate Deletes(rd: Reader, given: Given, d: Argument) {
    Supplied(given, d) && rd.truthy(given[d.name].value)
  }

  predicate Deleted(rd: Reader, given: Given, descs: seq<Argument>, n: string) {
    exists d :: d in descs && d.name == n && Deletes(rd, given, d)
  }

  /** The dictionary once the truthy values named by `descs` are deleted. */
  function Remaining(rd: Reader, given: Given, descs: seq<Argument>): Given {
    map n | n in given && !Deleted(rd, given, descs, n) :: given[n]
  }

  predicate UniqueNames(descs: seq<Argument>) {
    forall i, j :: 0 <= i < j < |descs| ==> descs[i].name != descs[j].name
  }

  function Names(descs: seq<Argument>, k: nat): set<string>
    requires k <= |descs|
  {
    set i | 0 <= i < k :: descs[i].name
  }

  lemma NextName(descs: seq<Argument>, k: nat)
    requires k < |descs|
    ensures UniqueNames(descs) ==> descs[k].name !in Names(descs, k)
    ensures Names(descs, k + 1) == Names(descs, k) + {descs[k].name}
  {
  }

  class KeywordArguments {
    var entries: Given

    constructor (given: Given)
      ensures entries == given
    {
      entries := given;
    }
  }

  lemma FormatErrSticks(rd: Reader, given: Given, descs: seq<Argument>, k: nat, m: nat)
    requires k <= m <= |descs|
    requires FormatPrefix(rd, given, descs, k).Err?
    ensures FormatPrefix(rd, given, descs, m) == FormatPrefix(rd, given, descs, k)
  {
  }

  lemma FormatFailsAt(rd: Reader, given: Given, descs: seq<Argument>, k: nat, out: map<string, Packet>)
    requires k < |descs| && given != map[] && FormatPrefix(rd, given, descs, k) == Ok(out)
    requires FormatOne(rd, given, descs[k], out).Err?
    ensures Format(rd, given, descs) == FormatOne(rd, given, descs[k], out)
  {
    FormatErrSticks(rd, given, descs, k + 1, |descs|);
  }

  /** A name not yet met still has the entry it was given with. */
  lemma StillThere(rd: Reader, given: Given, descs: seq<Argument>, k: nat, n: string)
    requires k <= |descs| && n !in Names(descs, k)
    ensures var left := Remaining(rd, given, descs[..k]);
            (n in left <==> n in given) && (n in left ==> left[n] == given[n])
  {
    forall i | 0 <= i < k ensures descs[i].name != n {
      assert descs[i].name in Names(descs, k);
    }
    assert !Deleted(rd, given, descs[..k], n);
  }

  lemma RemainingStep(rd: Reader, given: Given, descs: seq<Argument>, k: nat)
    requires k < |descs|
    ensures var d := descs[k]; var before := Remaining(rd, given, descs[..k]);
            Remaining(rd, given, descs[..k + 1]) == if Deletes(rd, given, d) then before - {d.name} else before
  {
    assert descs[..k + 1] == descs[..k] + [descs[k]];
    forall n | n in given
      ensures Deleted(rd, given, descs[..k + 1], n) <==>
                Deleted(rd, given, descs[..k], n) || (descs[k].name == n && Deletes(rd, given, descs[k]))
    {
    }
  }

  /** The source reads and deletes from one and the same dictionary; `arguments`
      and `left` are two names for it. The answer is nevertheless that of
      reading an untouched copy, whatever the descriptions. */
  method ValidateAndFormat(rd: Reader, arguments: KeywordArguments, descs: seq<Argument>)
    returns (r: Result<map<string, Packet>, ArgumentError>)
    modifies arguments
    ensures r == Format(rd, old(arguments.entries), descs)
    ensures exists k :: 0 <= k <= |descs| && arguments.entries == Remaining(rd, old(arguments.entries), descs[..k])
    ensures r.Ok? ==> arguments.entries == Remaining(rd, old(arguments.entries), descs)
    ensures old(arguments.entries) == map[] ==> r == Ok(map[])
    ensures r.Ok? ==> forall n :: n in arguments.entries <==>
              && n in old(arguments.entries)
              && !(exists d :: d in descs && d.name == n
                              && old(arguments.entries)[n].Some? && rd.truthy(old(arguments.entries)[n].value))
    ensures forall n :: n in arguments.entries ==> n in old(arguments.entries) && arguments.entries[n] == old(arguments.entries)[n]
  {
    ghost var given := arguments.entries;
    assert Remaining(rd, given, descs[..0]) == given;
    var left := arguments;
    if arguments.entries == map[] {
      assert Remaining(rd, given, descs) == given;
      return Ok(map[]);
    }
    var out: map<string, Packet> := map[];
    for k := 0 to |descs|
      invariant FormatPrefix(rd, given, descs, k) == Ok(out)
      invariant out.Keys == Names(descs, k)
      invariant arguments.entries == Remaining(rd, given, descs[..k])
    {
      var one := FormatNext(rd, arguments, left, descs, k, out, given);
      if one.Err? {
        FormatFailsAt(rd, given, descs, k, out);
        return one;
      }
      NextName(descs, k);
      out := one.value;
    }
    assert descs[..|descs|] == descs;
    return Ok(out);
  }

  /** One round of the loop. */
  method FormatNext(rd: Reader, arguments: KeywordArguments, left: KeywordArguments, descs: seq<Argument>, k: nat,
                    out: map<string, Packet>, ghost given: Given)
    returns (r: Result<map<string, Packet>, ArgumentError>)
    requires left == arguments && k < |descs| && out.Keys == Names(descs, k)
    requires arguments.entries == Remaining(rd, given, descs[..k])
    modifies arguments
    ensures r == FormatOne(rd, given, descs[k], out)
    ensures var d := descs[k];
            if exists i :: 0 <= i < k && descs[i].name == d.name then r == Err(DuplicateArgument)
            else if d.name !in given then r == if d.mandatory then Err(MissingArgument) else Ok(out[d.name := d.defaultValue])
            else if given[d.name] == None then r == Ok(out[d.name := d.defaultValue])
            else if d.kind == Other then r == Err(UnhandledArgumentType)
            else
              var v := rd.coerce(d.kind, given[d.name].value);
              r == if v.Some? then Ok(out[d.name := Packed(d.kind, v.value)])
                   else if d.kind == String then Err(TypeError)
                   else Err(InvalidArgumentType)
    ensures arguments.entries == Remaining(rd, given, descs[..if r.Ok? then k + 1 else k])
            || arguments.entries == Remaining(rd, given, descs[..k + 1])
    ensures r.Ok? ==> r.value.Keys == out.Keys + {descs[k].name}
  {
    var d := descs[k];
    if d.name in out {
      return Err(DuplicateArgument);
    }
    StillThere(rd, given, descs, k, d.name);
    RemainingStep(rd, given, descs, k);
    if d.mandatory && d.name !in arguments.entries {
      return Err(MissingArgument);
    }
    if d.name !in arguments.entries || arguments.entries[d.name].None? {
      return Ok(out[d.name := d.defaultValue]);
    }
    var value := arguments.entries[d.name].value;
    if rd.truthy(value) {
      left.entries := left.entries - {d.name};
    }
    if d.kind == Other {
      return Err(UnhandledArgumentType);
    }
    var coerced := rd.coerce(d.kind, value);
    if coerced == None {
      return Err(NotConvertible(d.kind));
    }
    return Ok(out[d.name := Packed(d.kind, coerced.value)]);
  }

  // ---- server side -------------------------------------------------------

  function Unpack(p: Packet, kind: Kind): Result<Scalar, ArgumentError> {
    if kind == Other then Err(UnhandledArgumentType)
    else if p.Packed? && p.kind == kind then Ok(p.value)
    else Err(UnpackingError)
  }

  function DecodeOne(arguments: map<string, Packet>, d: Argument): Result<Scalar, ArgumentError> {
    if d.mandatory && d.name !in arguments then Err(MissingArgument)
    else Unpack(if d.name in arguments then arguments[d.name] else d.defaultValue, d.kind)
  }

  function DecodePrefix(arguments: map<string, Packet>, descs: seq<Argument>, k: nat): Result<map<string, Scalar>, ArgumentError>
    requires k <= |descs|
  {
    if k == 0 then Ok(map[])
    else match DecodePrefix(arguments, descs, k - 1)
      case Err(e) => Err(e)
      case Ok(out) =>
        match DecodeOne(arguments, descs[k - 1])
        case Err(e) => Err(e)
        case Ok(v) => Ok(out[descs[k - 1].name := v])
  }

  function Decode(arguments: map<string, Packet>, descs: seq<Argument>): Result<map<string, Scalar>, ArgumentError> {
    DecodePrefix(arguments, descs, |descs|)
  }

  lemma DecodeErrSticks(arguments: map<string, Packet>, descs: seq<Argument>, k: nat, m: nat)
    requires k <= m <= |descs|
    requires DecodePrefix(arguments, descs, k).Err?
    ensures DecodePrefix(arguments, descs, m) == DecodePrefix(arguments, descs, k)
  {
  }

  method DecodeFsmArguments(arguments: map<string, Packet>, descs: seq<Argument>)
    returns (r: Result<map<string, Scalar>, ArgumentError>)
    ensures r == Decode(arguments, descs)
  {
    var out: map<string, Scalar> := map[];
    for k := 0 to |descs|
      invariant DecodePrefix(arguments, descs, k) == Ok(out)
    {
      var d := descs[k];
      var one := DecodeOne(arguments, d);
      if one.Err? {
        DecodeErrSticks(arguments, descs, k + 1, |descs|);
        return Err(one.error);
      }
      out := out[d.name := one.value];
    }
    return Ok(out);
  }

  /** An argument of the message, or its default, is taken if it holds a value of
      the argument's kind. */
  lemma DecodeOneMeans(arguments: map<string, Packet>, d: Argument)
    ensures var r := DecodeOne(arguments, d);
            if d.name !in arguments && d.mandatory then r == Err(MissingArgument)
            else if d.kind == Other then r == Err(UnhandledArgumentType)
            else
              var p := if d.name in arguments then arguments[d.name] else d.defaultValue;
              r == if p.Packed? && p.kind == d.kind then Ok(p.value) else Err(UnpackingError)
  {
  }

  /** The first argument that cannot be decoded settles the error. */
  lemma {:induction false} DecodeFailsFirst(arguments: map<string, Packet>, descs: seq<Argument>, k: nat)
    requires k < |descs| && DecodeOne(arguments, descs[k]).Err?
    requires forall i :: 0 <= i < k ==> DecodeOne(arguments, descs[i]).Ok?
    ensures Decode(arguments, descs) == Err(DecodeOne(arguments, descs[k]).error)
  {
    DecodePrefixFails(arguments, descs, k);
    DecodeErrSticks(arguments, descs, k + 1, |descs|);
  }

  // ---- the round trip ----------------------------------------------------

  /** What `get_arguments` builds: a default of the argument's own kind exactly
      for the optional ones. */
  predicate WellFormed(d: Argument) {
    d.kind != Other && if d.mandatory then d.defaultValue == Unset else d.defaultValue.Packed? && d.defaultValue.kind == d.kind
  }

  /** The value the transition is meant to see; None if it must be refused. */
  function Meant(rd: Reader, given: Given, d: Argument): Option<Scalar>
    requires WellFormed(d)
  {
    if Supplied(given, d) then rd.coerce(d.kind, given[d.name].value)
    else if d.mandatory then None
    else Some(d.defaultValue.value)
  }

  /** Under a new name, what is written does not depend on what else there is. */
  lemma FormatOneAlone(rd: Reader, given: Given, d: Argument, out: map<string, Packet>)
    requires d.name !in out
    ensures match FormatOne(rd, given, d, map[])
            case Err(e) => FormatOne(rd, given, d, out) == Err(e)
            case Ok(one) =>
              && d.name in one && one == map[d.name := one[d.name]]
              && FormatOne(rd, given, d, out) == Ok(out[d.name := one[d.name]])
  {
  }

  lemma {:induction false} FormatPrefixKeys(rd: Reader, given: Given, descs: seq<Argument>, k: nat)
    requires k <= |descs| && FormatPrefix(rd, given, descs, k).Ok?
    ensures FormatPrefix(rd, given, descs, k).value.Keys == Names(descs, k)
  {
    if k > 0 {
      FormatPrefixKeys(rd, given, descs, k - 1);
      NextName(descs, k - 1);
    }
  }

  /** What is written for an argument is not touched by the later ones. */
  lemma {:induction false} FormatPrefixAt(rd: Reader, given: Given, descs: seq<Argument>, k: nat, i: nat)
    requires i < k <= |descs| && UniqueNames(descs) && FormatPrefix(rd, given, descs, k).Ok?
    ensures var d, out := descs[i], FormatPrefix(rd, given, descs, k).value;
            d.name in out && FormatOne(rd, given, d, map[]) == Ok(map[d.name := out[d.name]])
  {
    if i < k - 1 {
      FormatPrefixAt(rd, given, descs, k - 1, i);
    } else {
      FormatPrefixKeys(rd, given, descs, k - 1);
      NextName(descs, k - 1);
      FormatOneAlone(rd, given, descs[i], FormatPrefix(rd, given, descs, k - 1).value);
    }
  }

  lemma {:induction false} FormatPrefixFails(rd: Reader, given: Given, descs: seq<Argument>, k: nat)
    requires k <= |descs| && UniqueNames(descs)
    ensures FormatPrefix(rd, given, descs, k).Ok? <==> forall i :: 0 <= i < k ==> FormatOne(rd, given, descs[i], map[]).Ok?
  {
    if k > 0 {
      FormatPrefixFails(rd, given, descs, k - 1);
      if FormatPrefix(rd, given, descs, k - 1).Ok? {
        FormatPrefixKeys(rd, given, descs, k - 1);
        NextName(descs, k - 1);
        FormatOneAlone(rd, given, descs[k - 1], FormatPrefix(rd, given, descs, k - 1).value);
      }
    }
  }

  /** A name described twice is refused, whatever the user typed. */
  lemma {:induction false} FormatRefusesDuplicates(rd: Reader, given: Given, descs: seq<Argument>, k: nat)
    requires k <= |descs| && FormatPrefix(rd, given, descs, k).Ok?
    ensures forall i, j :: 0 <= i < j < k ==> descs[i].name != descs[j].name
  {
    if k > 0 {
      FormatRefusesDuplicates(rd, given, descs, k - 1);
      FormatPrefixKeys(rd, given, descs, k - 1);
      forall i | 0 <= i < k - 1 ensures descs[i].name != descs[k - 1].name {
        assert descs[i].name in Names(descs, k - 1);
      }
    }
  }

  /** Exactly when the client accepts. */
  lemma FormatAcceptsIff(rd: Reader, given: Given, descs: seq<Argument>)
    ensures Format(rd, given, descs).Ok? <==>
              given == map[] || (UniqueNames(descs) && forall i :: 0 <= i < |descs| ==> FormatOne(rd, given, descs[i], map[]).Ok?)
  {
    if given != map[] {
      if UniqueNames(descs) {
        FormatPrefixFails(rd, given, descs, |descs|);
      } else if Format(rd, given, descs).Ok? {
        FormatRefusesDuplicates(rd, given, descs, |descs|);
      }
    }
  }

  lemma {:induction false} DecodePrefixFails(arguments: map<string, Packet>, descs: seq<Argument>, k: nat)
    requires k <= |descs|
    ensures DecodePrefix(arguments, descs, k).Ok? <==> forall i :: 0 <= i < k ==> DecodeOne(arguments, descs[i]).Ok?
  {
    if k > 0 {
      DecodePrefixFails(arguments, descs, k - 1);
    }
  }

  lemma {:induction false} DecodePrefixKeys(arguments: map<string, Packet>, descs: seq<Argument>, k: nat)
    requires k <= |descs| && DecodePrefix(arguments, descs, k).Ok?
    ensures DecodePrefix(arguments, descs, k).value.Keys == Names(descs, k)
  {
    if k > 0 {
      DecodePrefixKeys(arguments, descs, k - 1);
      NextName(descs, k - 1);
    }
  }

  lemma {:induction false} DecodePrefixAt(arguments: map<string, Packet>, descs: seq<Argument>, k: nat, i: nat)
    requires i < k <= |descs| && UniqueNames(descs) && DecodePrefix(arguments, descs, k).Ok?
    ensures var d, out := descs[i], DecodePrefix(arguments, descs, k).value;
            d.name in out && DecodeOne(arguments, d) == Ok(out[d.name])
  {
    if i < k - 1 {
      DecodePrefixAt(arguments, descs, k - 1, i);
    }
  }

  /** Each argument on its own: formatting followed by decoding gives the value
      meant. Where there is none, the client refuses a value it cannot convert
      and a mandatory argument that was not named; one that was named but given
      as None gets past the client and is refused by the server. */
  lemma RoundTripOne(rd: Reader, given: Given, d: Argument)
    requires WellFormed(d) && given != map[]
    ensures var f := FormatOne(rd, given, d, map[]);
            match Meant(rd, given, d)
            case Some(v) => f.Ok? && DecodeOne(f.value, d) == Ok(v)
            case None =>
              if d.name !in given then f == Err(MissingArgument)
              else if given[d.name].Some? then f == Err(NotConvertible(d.kind))
              else f.Ok? && DecodeOne(f.value, d) == Err(UnpackingError)
  {
  }

  predicate Accepted(rd: Reader, given: Given, descs: seq<Argument>) {
    Format(rd, given, descs).Ok? && Decode(Format(rd, given, descs).value, descs).Ok?
  }

  /** One argument seen inside the whole dictionary. */
  lemma RoundTripAt(rd: Reader, given: Given, descs: seq<Argument>, i: nat)
    requires UniqueNames(descs) && i < |descs| && WellFormed(descs[i])
    requires Format(rd, given, descs).Ok?
    ensures match Meant(rd, given, descs[i])
            case None => DecodeOne(Format(rd, given, descs).value, descs[i]).Err?
            case Some(v) => DecodeOne(Format(rd, given, descs).value, descs[i]) == Ok(v)
  {
    if given != map[] {
      FormatPrefixAt(rd, given, descs, |descs|, i);
      RoundTripOne(rd, given, descs[i]);
    }
  }

  /** The whole round trip. Both sides accept exactly when every argument has a
      meant value, and then decoding yields just those values. In particular a
      mandatory argument that is missing, or given as None, is always refused. */
  lemma RoundTrip(rd: Reader, given: Given, descs: seq<Argument>)
    requires UniqueNames(descs)
    requires forall i :: 0 <= i < |descs| ==> WellFormed(descs[i])
    ensures Accepted(rd, given, descs) <==> forall i :: 0 <= i < |descs| ==> Meant(rd, given, descs[i]).Some?
    ensures Accepted(rd, given, descs) ==>
              var decoded := Decode(Format(rd, given, descs).value, descs).value;
              && decoded.Keys == Names(descs, |descs|)
              && forall i :: 0 <= i < |descs| ==> descs[i].name in decoded && Meant(rd, given, descs[i]) == Some(decoded[descs[i].name])
  {
    if Format(rd, given, descs).Ok? {
      DecodePrefixFails(Format(rd, given, descs).value, descs, |descs|);
      if Accepted(rd, given, descs) {
        DecodePrefixKeys(Format(rd, given, descs).value, descs, |descs|);
      }
      forall i | 0 <= i < |descs| ensures
        match Meant(rd, given, descs[i])
        case None => DecodeOne(Format(rd, given, descs).value, descs[i]).Err?
        case Some(v) =>
          && DecodeOne(Format(rd, given, descs).value, descs[i]) == Ok(v)
          && (Accepted(rd, given, descs) ==>
                var decoded := Decode(Format(rd, given, descs).value, descs).value;
                descs[i].name in decoded && decoded[descs[i].name] == v)
      {
        RoundTripAt(rd, given, descs, i);
        if Accepted(rd, given, descs) {
          DecodePrefixAt(Format(rd, given, descs).value, descs, |descs|, i);
        }
      }
    } else {
      FormatPrefixFails(rd, given, descs, |descs|);
      var i :| 0 <= i < |descs| && FormatOne(rd, given, descs[i], map[]).Err?;
      RoundTripOne(rd, given, descs[i]);
    }
  }
}
