/**
 * plugins/lib/__init__.py: the scope-restriction flags, the `Option` record that the
 * documentation scraper produces, and the JSON encoder and decoder hook for it.
 */
module Lib {
  import opened Wrappers

  /** Where the generated table of configuration options lives. */
  const DocBaseUrl: string := "https://docs.kde.org/trunk5/en/kdesrc-build/kdesrc-build/conf-options-table.html"

  // ---------------------------------------------------------------------------
  // RegionTypeRestriction

  /**
   * A `RegionTypeRestriction`: an integer bit flag. Bit 0 stands for "global only",
   * bit 1 for "module-set only"; the flag class admits any integer as a value.
   */
  type Restriction = int

  const AnyScope: Restriction := 0
  const GlobalScope: Restriction := 1
  const ModuleSetScope: Restriction := 2

  /** `a | b` on non-negative integers. */
  function BitOr(a: nat, b: nat): nat
    decreases a + b
  {
    if a == 0 then b
    else if b == 0 then a
    else 2 * BitOr(a / 2, b / 2) + (if a % 2 == 1 || b % 2 == 1 then 1 else 0)
  }

  /** Bit `k` of `x` is set. */
  predicate HasBit(x: nat, k: nat) {
    if k == 0 then x % 2 == 1 else HasBit(x / 2, k - 1)
  }

  lemma {:induction false} NoBitOfZero(k: nat)
    ensures !HasBit(0, k)
  {
    if k > 0 {
      NoBitOfZero(k - 1);
    }
  }

  /** `BitOr` is bitwise: each bit of the result is the disjunction of the operands' bits. */
  lemma {:induction false} BitOrBits(a: nat, b: nat, k: nat)
    ensures HasBit(BitOr(a, b), k) == (HasBit(a, k) || HasBit(b, k))
    decreases a + b
  {
    if a == 0 {
      NoBitOfZero(k);
    } else if b == 0 {
      NoBitOfZero(k);
    } else if k > 0 {
      var bit := if a % 2 == 1 || b % 2 == 1 then 1 else 0;
      assert BitOr(a, b) / 2 == BitOr(a / 2, b / 2) by {
        assert BitOr(a, b) == 2 * BitOr(a / 2, b / 2) + bit;
      }
      BitOrBits(a / 2, b / 2, k - 1);
    }
  }

  /** The combined flag `GLOBAL | MODULE_SET` is 3, and `ANY` is neutral. */
  lemma CombinedRestriction(r: nat)
    ensures BitOr(GlobalScope, ModuleSetScope) == 3
    ensures BitOr(r, AnyScope) == r && BitOr(AnyScope, r) == r
  {
    assert BitOr(0, 1) == 1;
  }

  // ---------------------------------------------------------------------------
  // Option record

  /** The `Option` record: one row of the documentation table. */
  datatype ConfOption = ConfOption(name: string, anchor: string, region: Restriction, notes: string)

  /** The keys of an encoded `Option`. */
  const OptionKeys: set<string> := {"name", "anchor", "region", "notes"}

  /** The Python values that pass through the JSON encoder and decoder. */
  datatype PyJson =
    | PNull
    | PBool(b: bool)
    | PInt(i: int)
    | PStr(s: string)
    | PList(items: seq<PyJson>)
    | PDict(fields: map<string, PyJson>)
    | PRecord(option: ConfOption)
    | PObject(typeName: string)

  /** `type(obj).__name__`. */
  function TypeName(obj: PyJson): string {
    match obj
    case PNull => "NoneType"
    case PBool(_) => "bool"
    case PInt(_) => "int"
    case PStr(_) => "str"
    case PList(_) => "list"
    case PDict(_) => "dict"
    case PRecord(_) => "Option"
    case PObject(t) => t
  }

  // ---------------------------------------------------------------------------
  // OptionEncoder

  /** The `TypeError` of `json.JSONEncoder.default`. */
  datatype EncodeError = NotSerializable(typeName: string)

  /** The dictionary an `Option` is encoded as. */
  function Encode(o: ConfOption): (d: map<string, PyJson>)
    ensures d.Keys == OptionKeys
    ensures d["region"] == PInt(o.region)
    ensures d["name"] == PStr(o.name) && d["anchor"] == PStr(o.anchor) && d["notes"] == PStr(o.notes)
  {
    map["name" := PStr(o.name), "anchor" := PStr(o.anchor), "region" := PInt(o.region), "notes" := PStr(o.notes)]
  }

  /** `OptionEncoder.default`: an `Option` becomes a dictionary; anything else is refused. */
  function EncoderDefault(obj: PyJson): (r: Result<PyJson, EncodeError>)
    ensures r.Success? <==> obj.PRecord?
    ensures obj.PRecord? ==> r.value == PDict(Encode(obj.option))
    ensures !obj.PRecord? ==> r == Failure(NotSerializable(TypeName(obj)))
  {
    if obj.PRecord? then Success(PDict(Encode(obj.option)))
    else Failure(NotSerializable(TypeName(obj)))
  }

  // ---------------------------------------------------------------------------
  // OptionDecoder

  /**
   * Why the decoder hook cannot produce a record. `InvalidRegion` is the `ValueError`
   * of the flag constructor; `TextFieldNotString` marks a record whose text field
   * holds a non-string, which the typed record of this model cannot hold.
   */
  datatype DecodeError = InvalidRegion(value: PyJson) | TextFieldNotString(key: string)

  /** `RegionTypeRestriction(v)`: integers (and booleans, which are integers) are accepted. */
  function RegionOf(v: PyJson): (r: Result<Restriction, DecodeError>)
    ensures r.Success? <==> v.PInt? || v.PBool?
    ensures v.PInt? ==> r == Success(v.i)
  {
    match v
    case PInt(i) => Success(i)
    case PBool(b) => Success(if b then 1 else 0)
    case _ => Failure(InvalidRegion(v))
  }

  function TextField(obj: map<string, PyJson>, key: string): (r: Result<string, DecodeError>)
    requires key in obj
    ensures r.Success? <==> obj[key].PStr?
    ensures r.Success? ==> r.value == obj[key].s
  {
    if obj[key].PStr? then Success(obj[key].s) else Failure(TextFieldNotString(key))
  }

  /** The value types the four fields of a record need: strings, and an integer or boolean region. */
  predicate WellTypedRecord(obj: map<string, PyJson>)
    requires OptionKeys <= obj.Keys
  {
    obj["name"].PStr? && obj["anchor"].PStr? && obj["notes"].PStr? && (obj["region"].PInt? || obj["region"].PBool?)
  }

  /**
   * The decoder's object hook: a dictionary with all four keys (and any others) becomes
   * an `Option`, any other dictionary is returned as it is.
   */
  function ObjectHook(obj: map<string, PyJson>): (r: Result<PyJson, DecodeError>)
    ensures !(OptionKeys <= obj.Keys) ==> r == Success(PDict(obj))
    ensures OptionKeys <= obj.Keys ==> (r.Success? <==> WellTypedRecord(obj))
    ensures OptionKeys <= obj.Keys ==> (r.Success? ==> r.value.PRecord?)
    ensures OptionKeys <= obj.Keys && !obj["region"].PInt? && !obj["region"].PBool? && r.Failure? ==>
      r.error == InvalidRegion(obj["region"]) || r.error.TextFieldNotString?
    ensures r.Success? && r.value.PRecord? ==>
      && OptionKeys <= obj.Keys
      && obj["name"] == PStr(r.value.option.name)
      && obj["anchor"] == PStr(r.value.option.anchor)
      && obj["notes"] == PStr(r.value.option.notes)
      && (obj["region"] == PInt(r.value.option.region) || obj["region"].PBool?)
  {
    if "name" in obj && "anchor" in obj && "region" in obj && "notes" in obj then
      var name :- TextField(obj, "name");
      var anchor :- TextField(obj, "anchor");
      var region :- RegionOf(obj["region"]);
      var notes :- TextField(obj, "notes");
      Success(PRecord(ConfOption(name, anchor, region, notes)))
    else
      Success(PDict(obj))
  }

  /** Decoding the encoding of an `Option` gives the same `Option`, flag included. */
  lemma EncodeDecodeRoundTrip(o: ConfOption)
    ensures ObjectHook(EncoderDefault(PRecord(o)).value.fields) == Success(PRecord(o))
  {
  }

  /** A dictionary of exactly the four well-typed keys is the encoding of what it decodes to. */
  lemma DecodeEncodeRoundTrip(obj: map<string, PyJson>)
    requires obj.Keys == OptionKeys
    requires obj["name"].PStr? && obj["anchor"].PStr? && obj["notes"].PStr? && obj["region"].PInt?
    ensures ObjectHook(obj).Success? && ObjectHook(obj).value.PRecord?
    ensures PDict(Encode(ObjectHook(obj).value.option)) == PDict(obj)
  {
    var o := ObjectHook(obj).value.option;
    assert Encode(o) == obj;
  }

  // ---------------------------------------------------------------------------
  // conf_options.json as a list of records

  /** `json.dump(options, cls=OptionEncoder)`: the list of encoded records. */
  function DumpOptions(options: seq<ConfOption>): (r: seq<PyJson>)
    ensures |r| == |options|
  {
    if |options| == 0 then [] else [EncoderDefault(PRecord(options[0])).value] + DumpOptions(options[1..])
  }

  /**
   * `json.load(..., cls=OptionDecoder)` on a top-level list of flat objects: the hook
   * runs on each object of it. Python runs the hook on nested objects too, innermost
   * first; the dumped records hold no nested objects.
   */
  function LoadOptions(items: seq<PyJson>): Result<seq<PyJson>, DecodeError> {
    if |items| == 0 then Success([])
    else
      var first :- if items[0].PDict? then ObjectHook(items[0].fields) else Success(items[0]);
      var rest :- LoadOptions(items[1..]);
      Success([first] + rest)
  }

  function Records(options: seq<ConfOption>): (r: seq<PyJson>)
    ensures |r| == |options|
    ensures forall i :: 0 <= i < |options| ==> r[i] == PRecord(options[i])
  {
    if |options| == 0 then [] else [PRecord(options[0])] + Records(options[1..])
  }

  /** Loading what was dumped gives back every record, in order. */
  lemma {:induction false} LoadDumpRoundTrip(options: seq<ConfOption>)
    ensures LoadOptions(DumpOptions(options)) == Success(Records(options))
  {
    if |options| > 0 {
      EncodeDecodeRoundTrip(options[0]);
      LoadDumpRoundTrip(options[1..]);
      assert DumpOptions(options)[1..] == DumpOptions(options[1..]);
    }
  }
}
