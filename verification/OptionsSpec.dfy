/** App options, their schemas, and what the validator is meant to do with them.

    `ValidateElement` follows the validator value by value, including what it has seen
    when it gives up.  Beside it stand definitions that do not mention it: which values
    conform to a schema, what the output must look like, which device paths lie in the
    accepted values, and the second traversal that extracts device paths. */
module OptionsSpec {
  import opened Wrappers

  datatype Json =
    | Null
    | Bool(b: bool)
    | Int(i: int)
    | Real(r: real)
    | Str(s: string)
    | List(items: seq<Json>)
    | Dict(fields: seq<Field>)   // in insertion order

  datatype Field = Field(key: string, value: Json)

  datatype Range = Range(min: Option<real>, max: Option<real>)

  /** A schema element by the alternative of the element pattern it matches.  `Blank` is
      the empty alternative; `Unknown` matches none, and may still begin with "device". */
  datatype Kind =
    | StrKind(range: Range)
    | PasswordKind(range: Range)
    | IntKind(range: Range)
    | FloatKind(range: Range)
    | BoolKind
    | EmailKind
    | UrlKind
    | PortKind
    | MatchKind(pattern: string)
    | ChoiceKind(choices: seq<string>)
    | DeviceKind(filter: Option<string>)
    | Blank
    | Unknown(beginsWithDevice: bool)

  datatype Schema =
    | Element(kind: Kind, optional: bool)
    | ListOf(items: seq<Schema>)
    | DictOf(fields: seq<SchemaField>)

  datatype SchemaField = SchemaField(key: string, schema: Schema)

  type Path = string
  type Device = nat

  /** What the validator asks the rest of the system and the validation library. */
  datatype Env = Env(
    secrets: map<string, Json>,
    parseInt: string -> Option<int>,
    parseFloat: string -> Option<real>,
    parseBool: string -> Option<bool>,
    show: Json -> string,                     // str() of anything but a string
    isEmail: string -> bool,
    isUrl: string -> bool,
    matches: (string, string) -> bool,
    path: string -> Path,
    device: Path -> Option<Device>,
    passes: (string, Device) -> bool,
    sha1: string -> string)

  // ---------------------------------------------------------------- scalars

  const SECRET := "!secret "

  predicate IsSecret(v: Json) {
    v.Str? && SECRET <= v.s
  }

  function Resolve(env: Env, v: Json): Option<Json> {
    if !IsSecret(v) then Some(v)
    else
      var name := v.s[|SECRET|..];
      if name in env.secrets && env.secrets[name] != Null then Some(env.secrets[name]) else None
  }

  predicate InRange(range: Range, x: real) {
    (range.min.Some? ==> range.min.value <= x) && (range.max.Some? ==> x <= range.max.value)
  }

  function Truncate(r: real): int {
    if r >= 0.0 then r.Floor else -((-r).Floor)
  }

  function CoerceInt(env: Env, v: Json): Option<int> {
    match v
    case Int(i) => Some(i)
    case Bool(b) => Some(if b then 1 else 0)
    case Real(r) => Some(Truncate(r))
    case Str(s) => env.parseInt(s)
    case _ => None
  }

  function CoerceFloat(env: Env, v: Json): Option<real> {
    match v
    case Int(i) => Some(i as real)
    case Bool(b) => Some(if b then 1.0 else 0.0)
    case Real(r) => Some(r)
    case Str(s) => env.parseFloat(s)
    case _ => None
  }

  predicate Truthy(v: Json) {
    match v
    case Null => false
    case Bool(b) => b
    case Int(i) => i != 0
    case Real(r) => r != 0.0
    case Str(s) => s != ""
    case List(items) => items != []
    case Dict(fields) => fields != []
  }

  function CoerceBool(env: Env, v: Json): Option<bool> {
    if v.Str? then env.parseBool(v.s) else Some(Truthy(v))
  }

  function Show(env: Env, v: Json): string {
    if v.Str? then v.s else env.show(v)
  }

  function DeviceAt(env: Env, filter: Option<string>, v: Json): Option<Device> {
    if !v.Str? then None
    else
      var device := env.device(env.path(v.s));
      if device.Some? && (filter.Some? ==> env.passes(filter.value, device.value)) then device else None
  }

  /** The validated form of a value whose secret has been looked up. */
  function Accept(env: Env, kind: Kind, v: Json): Option<Json> {
    match kind
    case StrKind(range) => if v.Str? && InRange(range, |v.s| as real) then Some(v) else None
    case PasswordKind(range) => if v.Str? && InRange(range, |v.s| as real) then Some(v) else None
    case IntKind(range) =>
      var i := CoerceInt(env, v);
      if i.Some? && InRange(range, i.value as real) then Some(Int(i.value)) else None
    case FloatKind(range) =>
      var r := CoerceFloat(env, v);
      if r.Some? && InRange(range, r.value) then Some(Real(r.value)) else None
    case BoolKind =>
      var b := CoerceBool(env, v);
      if b.Some? then Some(Bool(b.value)) else None
    case EmailKind => if v.Str? && env.isEmail(v.s) then Some(v) else None
    case UrlKind => if v.Str? && env.isUrl(v.s) then Some(v) else None
    case PortKind =>
      var i := CoerceInt(env, v);
      if i.Some? && 1 <= i.value <= 65535 then Some(Int(i.value)) else None
    case MatchKind(pattern) => if env.matches(pattern, Show(env, v)) then Some(Str(Show(env, v))) else None
    case ChoiceKind(choices) => if Show(env, v) in choices then Some(Str(Show(env, v))) else None
    case DeviceKind(filter) => if DeviceAt(env, filter, v).Some? then Some(v) else None
    case Blank => None
    case Unknown(_) => None
  }

  /** The devices and the hashes of passwords met so far. */
  datatype Seen = Seen(devices: set<Device>, pwned: set<string>)

  /** A password is remembered before it is validated, a device once it is accepted. */
  function Notice(env: Env, kind: Kind, v: Json, seen: Seen): Seen {
    if kind.PasswordKind? && Truthy(v) then seen.(pwned := seen.pwned + {env.sha1(Show(env, v))})
    else if kind.DeviceKind? && DeviceAt(env, kind.filter, v).Some? then
      seen.(devices := seen.devices + {DeviceAt(env, kind.filter, v).value})
    else seen
  }

  function SingleValidate(env: Env, kind: Kind, value: Json, seen: Seen): (Option<Json>, Seen) {
    if value == Null then (None, seen)
    else
      var v := Resolve(env, value);
      if v.None? then (None, seen) else (Accept(env, kind, v.value), Notice(env, kind, v.value, seen))
  }

  // ---------------------------------------------------------------- schemas

  function Lookup(schema: seq<SchemaField>, key: string): (s: Option<Schema>)
    ensures s.Some? ==> SchemaField(key, s.value) in schema
    ensures s.None? ==> forall f :: f in schema ==> f.key != key
  {
    if schema == [] then None
    else
      assert schema == schema[..|schema| - 1] + [schema[|schema| - 1]];
      if schema[|schema| - 1].key == key then Some(schema[|schema| - 1].schema)
      else Lookup(schema[..|schema| - 1], key)
  }

  predicate HasKey(fields: seq<Field>, key: string) {
    exists i :: 0 <= i < |fields| && fields[i].key == key
  }

  /** May an option with this schema be missing? */
  predicate MayBeMissing(s: Schema) {
    match s
    case Element(_, optional) => optional
    case ListOf(items) => items != [] && items[0].Element? && items[0].optional
    case DictOf(_) => false
  }

  predicate NothingMissing(schema: seq<SchemaField>, fields: seq<Field>) {
    forall i :: 0 <= i < |schema| ==> HasKey(fields, schema[i].key) || MayBeMissing(schema[i].schema)
  }

  // ---------------------------------------------------------------- the validator

  function ValidateElement(env: Env, schema: Schema, value: Json, seen: Seen): (Option<Json>, Seen)
    decreases schema, 1, 0
  {
    match schema
    case Element(kind, _) => SingleValidate(env, kind, value, seen)
    case ListOf(items) =>
      if items == [] || !value.List? then (None, seen)
      else
        var (out, seen') := ValidateItems(env, items[0], value.items, seen);
        (if out.Some? then Some(List(out.value)) else None, seen')
    case DictOf(fields) =>
      if !value.Dict? then (None, seen)
      else
        var (out, seen') := ValidateFields(env, fields, value.fields, seen);
        (if out.Some? && NothingMissing(fields, out.value) then Some(Dict(out.value)) else None, seen')
  }

  function ValidateItems(env: Env, schema: Schema, items: seq<Json>, seen: Seen): (Option<seq<Json>>, Seen)
    decreases schema, 2, |items|
  {
    if items == [] then (Some([]), seen)
    else
      var (before, seen') := ValidateItems(env, schema, items[..|items| - 1], seen);
      if before.None? then (None, seen')
      else
        var (last, seen'') := ValidateElement(env, schema, items[|items| - 1], seen');
        (if last.Some? then Some(before.value + [last.value]) else None, seen'')
  }

  /** Unknown options are dropped; the first invalid one ends it. */
  function ValidateFields(env: Env, schema: seq<SchemaField>, fields: seq<Field>, seen: Seen)
    : (Option<seq<Field>>, Seen)
    decreases schema, 0, |fields|
  {
    if fields == [] then (Some([]), seen)
    else
      var (before, seen') := ValidateFields(env, schema, fields[..|fields| - 1], seen);
      var field := fields[|fields| - 1];
      var s := Lookup(schema, field.key);
      if before.None? || s.None? then (before, seen')
      else
        var (last, seen'') := ValidateElement(env, s.value, field.value, seen');
        (if last.Some? then Some(before.value + [Field(field.key, last.value)]) else None, seen'')
  }

  /** The validator as called on a dict of options. */
  function Validate(env: Env, schema: seq<SchemaField>, options: seq<Field>, seen: Seen): (Option<Json>, Seen) {
    ValidateElement(env, DictOf(schema), Dict(options), seen)
  }

  // ---------------------------------------------------------------- conformance

  /** Which values a schema admits. */
  ghost predicate Conforms(env: Env, schema: Schema, value: Json)
    decreases schema
  {
    match schema
    case Element(kind, _) =>
      value != Null && Resolve(env, value).Some? && Accept(env, kind, Resolve(env, value).value).Some?
    case ListOf(items) =>
      items != [] && value.List? && forall i :: 0 <= i < |value.items| ==> Conforms(env, items[0], value.items[i])
    case DictOf(fields) =>
      && value.Dict?
      && (forall i :: 0 <= i < |value.fields| ==>
            var s := Lookup(fields, value.fields[i].key);
            s.Some? ==> Conforms(env, s.value, value.fields[i].value))
      && NothingMissing(fields, value.fields)
  }

  lemma {:induction false} ItemsConform(env: Env, schema: Schema, items: seq<Json>, seen: Seen)
    ensures ValidateItems(env, schema, items, seen).0.Some?
            <==> forall i :: 0 <= i < |items| ==> Conforms(env, schema, items[i])
    decreases schema, 2, |items|
  {
    if items != [] {
      var n := |items| - 1;
      ItemsConform(env, schema, items[..n], seen);
      ElementConforms(env, schema, items[n], ValidateItems(env, schema, items[..n], seen).1);
      assert items == items[..n] + [items[n]];
    }
  }

  ghost predicate FieldConforms(env: Env, schema: seq<SchemaField>, f: Field)
    decreases schema
  {
    var s := Lookup(schema, f.key);
    s.Some? ==> Conforms(env, s.value, f.value)
  }

  lemma {:induction false} FieldsConform(env: Env, schema: seq<SchemaField>, fields: seq<Field>, seen: Seen)
    ensures ValidateFields(env, schema, fields, seen).0.Some?
            <==> forall i :: 0 <= i < |fields| ==> FieldConforms(env, schema, fields[i])
    ensures var out := ValidateFields(env, schema, fields, seen).0;
            out.Some? ==> forall key :: HasKey(out.value, key) <==> HasKey(fields, key) && Lookup(schema, key).Some?
    decreases schema, 0, |fields|
  {
    if fields != [] {
      var n := |fields| - 1;
      var rest := ValidateFields(env, schema, fields[..n], seen);
      FieldsConform(env, schema, fields[..n], seen);
      var s := Lookup(schema, fields[n].key);
      if s.Some? {
        ElementConforms(env, s.value, fields[n].value, rest.1);
      }
      assert fields == fields[..n] + [fields[n]];
      assert (forall i :: 0 <= i < |fields| ==> FieldConforms(env, schema, fields[i]))
        <==> (forall i :: 0 <= i < n ==> FieldConforms(env, schema, fields[..n][i])) && FieldConforms(env, schema, fields[n]);
      var out := ValidateFields(env, schema, fields, seen).0;
      if out.Some? {
        forall key
          ensures HasKey(out.value, key) <==> HasKey(fields, key) && Lookup(schema, key).Some?
        {
          KeyOfAppend(fields[..n], fields[n], key);
          if s.Some? {
            KeyOfAppend(rest.0.value, out.value[|rest.0.value|], key);
          }
        }
      }
    }
  }

  /** A dict is validated to a dict: no key is written twice. */
  lemma {:induction false} OutputKeysAreUnique(env: Env, schema: seq<SchemaField>, fields: seq<Field>, seen: Seen)
    requires HasUniqueKeys(fields) && ValidateFields(env, schema, fields, seen).0.Some?
    ensures HasUniqueKeys(ValidateFields(env, schema, fields, seen).0.value)
    decreases |fields|
  {
    if fields != [] {
      var n := |fields| - 1;
      OutputKeysAreUnique(env, schema, fields[..n], seen);
      FieldsConform(env, schema, fields[..n], seen);
      var before := ValidateFields(env, schema, fields[..n], seen).0.value;
      assert !HasKey(fields[..n], fields[n].key);
      assert forall i :: 0 <= i < |before| ==> HasKey(before, before[i].key);
    }
  }

  lemma KeyOfAppend(fields: seq<Field>, f: Field, key: string)
    ensures HasKey(fields + [f], key) <==> HasKey(fields, key) || f.key == key
  {
    var all := fields + [f];
    assert all[|fields|] == f;
    if i :| 0 <= i < |fields| && fields[i].key == key {
      assert all[i].key == key;
    }
  }

  /** The validator accepts exactly the values that conform, whatever it has seen. */
  lemma {:induction false} ElementConforms(env: Env, schema: Schema, value: Json, seen: Seen)
    ensures ValidateElement(env, schema, value, seen).0.Some? <==> Conforms(env, schema, value)
    decreases schema, 1, 0
  {
    match schema {
      case Element(_, _) =>
      case ListOf(items) =>
        if items != [] && value.List? {
          ItemsConform(env, items[0], value.items, seen);
        }
      case DictOf(fields) =>
        if value.Dict? {
          FieldsConform(env, fields, value.fields, seen);
          assert forall i :: 0 <= i < |value.fields| ==>
            (FieldConforms(env, fields, value.fields[i]) <==>
               var s := Lookup(fields, value.fields[i].key);
               s.Some? ==> Conforms(env, s.value, value.fields[i].value));
          assert forall i :: 0 <= i < |fields| ==> Lookup(fields, fields[i].key).Some?;
        }
    }
  }

  // ---------------------------------------------------------------- what each kind admits

  /** The whole part of a number, without its fraction. */
  ghost predicate IsWholePart(i: int, r: real) {
    if r >= 0.0 then i as real <= r < i as real + 1.0 else i as real - 1.0 < r <= i as real
  }

  ghost predicate ReadsAsInt(env: Env, v: Json, i: int) {
    || v == Int(i)
    || (v == Bool(true) && i == 1)
    || (v == Bool(false) && i == 0)
    || (v.Real? && IsWholePart(i, v.r))
    || (v.Str? && env.parseInt(v.s) == Some(i))
  }

  ghost predicate ReadsAsFloat(env: Env, v: Json, r: real) {
    || v == Real(r)
    || (v.Int? && v.i as real == r)
    || (v == Bool(true) && r == 1.0)
    || (v == Bool(false) && r == 0.0)
    || (v.Str? && env.parseFloat(v.s) == Some(r))
  }

  ghost predicate IsEmpty(v: Json) {
    v in {Null, Bool(false), Int(0), Real(0.0), Str(""), List([]), Dict([])}
  }

  ghost predicate Within(range: Range, x: real) {
    (forall m :: range.min == Some(m) ==> m <= x) && forall m :: range.max == Some(m) ==> x <= m
  }

  ghost predicate ReadsAsText(env: Env, v: Json, text: string) {
    if v.Str? then v.s == text else env.show(v) == text
  }

  /** The limits of each kind, and what its output says about the value. */
  ghost predicate Admits(env: Env, kind: Kind, v: Json, out: Json) {
    match kind
    case StrKind(range) => v.Str? && out == v && Within(range, |v.s| as real)
    case PasswordKind(range) => v.Str? && out == v && Within(range, |v.s| as real)
    case IntKind(range) => out.Int? && ReadsAsInt(env, v, out.i) && Within(range, out.i as real)
    case FloatKind(range) => out.Real? && ReadsAsFloat(env, v, out.r) && Within(range, out.r)
    case BoolKind => out.Bool? && if v.Str? then env.parseBool(v.s) == Some(out.b) else out.b == !IsEmpty(v)
    case EmailKind => v.Str? && out == v && env.isEmail(v.s)
    case UrlKind => v.Str? && out == v && env.isUrl(v.s)
    case PortKind => out.Int? && ReadsAsInt(env, v, out.i) && 1 <= out.i <= 65535
    case MatchKind(pattern) => out.Str? && ReadsAsText(env, v, out.s) && env.matches(pattern, out.s)
    case ChoiceKind(choices) => out.Str? && ReadsAsText(env, v, out.s) && out.s in choices
    case DeviceKind(filter) =>
      && v.Str? && out == v
      && exists d :: env.device(env.path(v.s)) == Some(d) && forall f :: filter == Some(f) ==> env.passes(f, d)
    case Blank => false
    case Unknown(_) => false
  }

  /** The value that is meant: itself, or what a secret stands for. */
  ghost predicate Means(env: Env, value: Json, v: Json) {
    && v != Null
    && if value.Str? && SECRET <= value.s then value.s[8..] in env.secrets && env.secrets[value.s[8..]] == v
       else v == value
  }

  lemma TruthyIsNotEmpty(v: Json)
    ensures Truthy(v) <==> !IsEmpty(v)
  {
  }

  lemma CoercedExactly(env: Env, v: Json)
    ensures forall i :: CoerceInt(env, v) == Some(i) <==> ReadsAsInt(env, v, i)
    ensures forall r :: CoerceFloat(env, v) == Some(r) <==> ReadsAsFloat(env, v, r)
  {
  }

  lemma InRangeExactly(range: Range, x: real)
    ensures InRange(range, x) <==> Within(range, x)
  {
  }

  lemma AcceptedExactly(env: Env, kind: Kind, v: Json, out: Json)
    ensures Accept(env, kind, v) == Some(out) <==> Admits(env, kind, v, out)
  {
    hide CoerceInt, CoerceFloat, InRange, Within, ReadsAsInt, ReadsAsFloat, Truthy, IsEmpty;
    match kind {
      case StrKind(range) => if v.Str? { InRangeExactly(range, |v.s| as real); }
      case PasswordKind(range) => if v.Str? { InRangeExactly(range, |v.s| as real); }
      case IntKind(range) =>
        CoercedExactly(env, v);
        if out.Int? {
          InRangeExactly(range, out.i as real);
        }
      case FloatKind(range) =>
        CoercedExactly(env, v);
        if out.Real? {
          InRangeExactly(range, out.r);
        }
      case PortKind => CoercedExactly(env, v);
      case BoolKind => TruthyIsNotEmpty(v);
      case _ =>
    }
  }

  /** A scalar is accepted with this output exactly if what it means meets the limits of its
      kind. */
  lemma ElementIsAcceptedExactly(env: Env, kind: Kind, optional: bool, value: Json, out: Json, seen: Seen)
    ensures ValidateElement(env, Element(kind, optional), value, seen).0 == Some(out)
            <==> exists v :: Means(env, value, v) && Admits(env, kind, v, out)
  {
    assert |SECRET| == 8;
    var r := Resolve(env, value);
    if value != Null && r.Some? {
      AcceptedExactly(env, kind, r.value, out);
      assert r.value != Null ==> Means(env, value, r.value);
      assert r.value != Null;
    }
    forall v
      ensures Means(env, value, v) <==> value != Null && r == Some(v) && v != Null
    {
    }
  }

  /** An option may be left out exactly if its schema is optional, or a list whose first element
      is. */
  ghost predicate IsOptional(s: Schema) {
    (exists kind :: s == Element(kind, true))
    || exists kind, items :: s == ListOf(items) && items != [] && items[0] == Element(kind, true)
  }

  /** Options whose known values all conform are rejected exactly if one that is not optional is
      missing. */
  lemma MissingOptionsAreRejectedExactly(env: Env, schema: seq<SchemaField>, options: seq<Field>, seen: Seen)
    requires forall i :: 0 <= i < |options| ==> FieldConforms(env, schema, options[i])
    ensures Validate(env, schema, options, seen).0.None?
            <==> exists j :: 0 <= j < |schema| && !IsOptional(schema[j].schema)
                             && forall i :: 0 <= i < |options| ==> options[i].key != schema[j].key
  {
    ElementConforms(env, DictOf(schema), Dict(options), seen);
    assert forall i :: 0 <= i < |options| ==>
      (FieldConforms(env, schema, options[i]) <==>
         var s := Lookup(schema, options[i].key); s.Some? ==> Conforms(env, s.value, options[i].value));
    forall j | 0 <= j < |schema|
      ensures MayBeMissing(schema[j].schema) <==> IsOptional(schema[j].schema)
      ensures HasKey(options, schema[j].key) <==> exists i :: 0 <= i < |options| && options[i].key == schema[j].key
    {
      OptionalExactly(schema[j].schema);
    }
  }

  lemma OptionalExactly(s: Schema)
    ensures MayBeMissing(s) <==> IsOptional(s)
  {
    match s {
      case Element(kind, optional) => assert s == Element(kind, optional);
      case ListOf(items) =>
        if items != [] && items[0].Element? {
          assert items[0] == Element(items[0].kind, items[0].optional);
        }
      case DictOf(_) =>
    }
  }

  // ---------------------------------------------------------------- the output

  /** Fully validated options: every scalar is in its final form, and at every level there
      are only schema keys and every required one. */
  ghost predicate Canonical(env: Env, schema: Schema, out: Json)
    decreases schema
  {
    match schema
    case Element(kind, _) => out != Null && Accept(env, kind, out) == Some(out)
    case ListOf(items) =>
      items != [] && out.List? && forall i :: 0 <= i < |out.items| ==> Canonical(env, items[0], out.items[i])
    case DictOf(fields) =>
      && out.Dict?
      && (forall i :: 0 <= i < |out.fields| ==>
            var s := Lookup(fields, out.fields[i].key);
            s.Some? && Canonical(env, s.value, out.fields[i].value))
      && NothingMissing(fields, out.fields)
  }

  /** Every string in the value stands for itself: looking it up as a secret changes nothing. */
  predicate Settled(env: Env, v: Json) {
    match v
    case Str(_) => Resolve(env, v) == Some(v)
    case List(items) => forall i :: 0 <= i < |items| ==> Settled(env, items[i])
    case Dict(fields) => forall i :: 0 <= i < |fields| ==> Settled(env, fields[i].value)
    case _ => true
  }

  /** Coercing a scalar twice is coercing it once. */
  lemma AcceptIsIdempotent(env: Env, kind: Kind, v: Json)
    requires Accept(env, kind, v).Some?
    ensures Accept(env, kind, Accept(env, kind, v).value) == Accept(env, kind, v)
    ensures v != Null ==> Accept(env, kind, v).value != Null
  {
  }

  lemma {:induction false} ItemsAreCanonical(env: Env, schema: Schema, items: seq<Json>, seen: Seen)
    requires ValidateItems(env, schema, items, seen).0.Some?
    ensures var out := ValidateItems(env, schema, items, seen).0.value;
            |out| == |items| && forall i :: 0 <= i < |out| ==> Canonical(env, schema, out[i])
    decreases schema, 2, |items|
  {
    if items != [] {
      var n := |items| - 1;
      ItemsAreCanonical(env, schema, items[..n], seen);
      OutputIsCanonical(env, schema, items[n], ValidateItems(env, schema, items[..n], seen).1);
    }
  }

  ghost predicate FieldIsCanonical(env: Env, schema: seq<SchemaField>, f: Field)
    decreases schema
  {
    var s := Lookup(schema, f.key);
    s.Some? && Canonical(env, s.value, f.value)
  }

  lemma {:induction false} FieldsAreCanonical(env: Env, schema: seq<SchemaField>, fields: seq<Field>, seen: Seen)
    requires ValidateFields(env, schema, fields, seen).0.Some?
    ensures var out := ValidateFields(env, schema, fields, seen).0.value;
            forall i :: 0 <= i < |out| ==> FieldIsCanonical(env, schema, out[i])
    decreases schema, 0, |fields|
  {
    if fields != [] {
      var n := |fields| - 1;
      var rest := ValidateFields(env, schema, fields[..n], seen);
      FieldsAreCanonical(env, schema, fields[..n], seen);
      var s := Lookup(schema, fields[n].key);
      if s.Some? {
        OutputIsCanonical(env, s.value, fields[n].value, rest.1);
      }
    }
  }

  /** Whatever the validator returns is fully validated. */
  lemma {:induction false} OutputIsCanonical(env: Env, schema: Schema, value: Json, seen: Seen)
    requires ValidateElement(env, schema, value, seen).0.Some?
    ensures Canonical(env, schema, ValidateElement(env, schema, value, seen).0.value)
    decreases schema, 1, 0
  {
    var out := ValidateElement(env, schema, value, seen).0.value;
    match schema {
      case Element(kind, _) =>
        if Resolve(env, value).value != Null {
          AcceptIsIdempotent(env, kind, Resolve(env, value).value);
        }
      case ListOf(items) => ItemsAreCanonical(env, items[0], value.items, seen);
      case DictOf(fields) =>
        FieldsAreCanonical(env, fields, value.fields, seen);
        assert forall i :: 0 <= i < |out.fields| ==> FieldIsCanonical(env, fields, out.fields[i]);
    }
  }

  lemma {:induction false} CanonicalItemsStay(env: Env, schema: Schema, items: seq<Json>, seen: Seen)
    requires forall i :: 0 <= i < |items| ==> Canonical(env, schema, items[i]) && Settled(env, items[i])
    ensures ValidateItems(env, schema, items, seen).0 == Some(items)
    decreases schema, 2, |items|
  {
    if items != [] {
      var n := |items| - 1;
      CanonicalItemsStay(env, schema, items[..n], seen);
      CanonicalStays(env, schema, items[n], ValidateItems(env, schema, items[..n], seen).1);
      assert items == items[..n] + [items[n]];
    }
  }

  lemma {:induction false} CanonicalFieldsStay(env: Env, schema: seq<SchemaField>, fields: seq<Field>, seen: Seen)
    requires forall i :: 0 <= i < |fields| ==> FieldIsCanonical(env, schema, fields[i]) && Settled(env, fields[i].value)
    ensures ValidateFields(env, schema, fields, seen).0 == Some(fields)
    decreases schema, 0, |fields|
  {
    if fields != [] {
      var n := |fields| - 1;
      CanonicalFieldsStay(env, schema, fields[..n], seen);
      var s := Lookup(schema, fields[n].key);
      assert FieldIsCanonical(env, schema, fields[n]);
      CanonicalStays(env, s.value, fields[n].value, ValidateFields(env, schema, fields[..n], seen).1);
      assert fields == fields[..n] + [fields[n]];
    }
  }

  lemma {:induction false} CanonicalStays(env: Env, schema: Schema, out: Json, seen: Seen)
    requires Canonical(env, schema, out) && Settled(env, out)
    ensures ValidateElement(env, schema, out, seen).0 == Some(out)
    decreases schema, 1, 0
  {
    match schema {
      case Element(_, _) =>
      case ListOf(items) => CanonicalItemsStay(env, items[0], out.items, seen);
      case DictOf(fields) =>
        forall i | 0 <= i < |out.fields|
          ensures FieldIsCanonical(env, fields, out.fields[i])
        {
        }
        CanonicalFieldsStay(env, fields, out.fields, seen);
    }
  }

  /** No secret's value refers to another secret. */
  ghost predicate FlatSecrets(env: Env) {
    forall name :: name in env.secrets && env.secrets[name].Str? ==>
      Resolve(env, env.secrets[name]) == Some(env.secrets[name])
  }

  /** What other values are shown as does not look like a secret. */
  ghost predicate ShowsNoSecrets(env: Env) {
    forall v: Json :: !v.Str? ==> !IsSecret(Str(env.show(v)))
  }

  lemma ScalarIsSettled(env: Env, kind: Kind, value: Json)
    requires FlatSecrets(env) && ShowsNoSecrets(env) && Resolve(env, value).Some?
    requires Accept(env, kind, Resolve(env, value).value).Some?
    ensures Settled(env, Accept(env, kind, Resolve(env, value).value).value)
  {
    var v := Resolve(env, value).value;
    assert v.Str? ==> Resolve(env, v) == Some(v);
    assert !v.Str? ==> !IsSecret(Str(env.show(v)));
  }

  lemma {:induction false} ItemsAreSettled(env: Env, schema: Schema, items: seq<Json>, seen: Seen)
    requires FlatSecrets(env) && ShowsNoSecrets(env) && ValidateItems(env, schema, items, seen).0.Some?
    ensures Settled(env, List(ValidateItems(env, schema, items, seen).0.value))
    decreases schema, 2, |items|
  {
    if items != [] {
      var n := |items| - 1;
      ItemsAreSettled(env, schema, items[..n], seen);
      OutputIsSettled(env, schema, items[n], ValidateItems(env, schema, items[..n], seen).1);
      hide FlatSecrets, ShowsNoSecrets, Resolve;
    }
  }

  lemma {:induction false} FieldsAreSettled(env: Env, schema: seq<SchemaField>, fields: seq<Field>, seen: Seen)
    requires FlatSecrets(env) && ShowsNoSecrets(env) && ValidateFields(env, schema, fields, seen).0.Some?
    ensures Settled(env, Dict(ValidateFields(env, schema, fields, seen).0.value))
    decreases schema, 0, |fields|
  {
    if fields != [] {
      var n := |fields| - 1;
      FieldsAreSettled(env, schema, fields[..n], seen);
      var s := Lookup(schema, fields[n].key);
      if s.Some? {
        OutputIsSettled(env, s.value, fields[n].value, ValidateFields(env, schema, fields[..n], seen).1);
      }
      hide FlatSecrets, ShowsNoSecrets, Resolve;
    }
  }

  lemma {:induction false} OutputIsSettled(env: Env, schema: Schema, value: Json, seen: Seen)
    requires FlatSecrets(env) && ShowsNoSecrets(env) && ValidateElement(env, schema, value, seen).0.Some?
    ensures Settled(env, ValidateElement(env, schema, value, seen).0.value)
    decreases schema, 1, 0
  {
    match schema {
      case Element(kind, _) => ScalarIsSettled(env, kind, value);
      case ListOf(items) => ItemsAreSettled(env, items[0], value.items, seen);
      case DictOf(fields) => FieldsAreSettled(env, fields, value.fields, seen);
    }
  }

  /** Validating an output whose strings stand for themselves succeeds with the same output. */
  lemma SettledOutputStays(env: Env, schema: seq<SchemaField>, options: seq<Field>, seen: Seen, again: Seen)
    requires Validate(env, schema, options, seen).0.Some?
    requires Settled(env, Validate(env, schema, options, seen).0.value)
    ensures Validate(env, schema, options, seen).0.value.Dict?
    ensures var out := Validate(env, schema, options, seen).0.value;
            Validate(env, schema, out.fields, again).0 == Some(out)
  {
    OutputIsCanonical(env, DictOf(schema), Dict(options), seen);
    CanonicalStays(env, DictOf(schema), Validate(env, schema, options, seen).0.value, again);
  }

  ghost predicate StaysOnRevalidation(env: Env, schema: seq<SchemaField>, options: seq<Field>, seen: Seen, again: Seen) {
    var out := Validate(env, schema, options, seen).0;
    out.Some? ==> out.value.Dict? && Validate(env, schema, out.value.fields, again).0 == out
  }

  ghost predicate ValidationIsIdempotent(env: Env) {
    forall schema, options, seen, again :: StaysOnRevalidation(env, schema, options, seen, again)
  }

  /** Validating an output again yields the same output, for every schema and all options,
      exactly if no secret's value refers to another secret. */
  lemma IdempotentExactlyIfSecretsAreFlat(env: Env)
    requires ShowsNoSecrets(env)
    ensures ValidationIsIdempotent(env) <==> FlatSecrets(env)
  {
    if FlatSecrets(env) {
      forall schema, options, seen, again
        ensures StaysOnRevalidation(env, schema, options, seen, again)
      {
        if Validate(env, schema, options, seen).0.Some? {
          OutputIsSettled(env, DictOf(schema), Dict(options), seen);
          SettledOutputStays(env, schema, options, seen, again);
        }
      }
    } else {
      var name :| name in env.secrets && env.secrets[name].Str?
                  && Resolve(env, env.secrets[name]) != Some(env.secrets[name]);
      SecretOfASecretIsNotStable(env, name, Seen({}, {}));
    }
  }

  /** With such a secret the output is looked up again. */
  lemma SecretOfASecretIsNotStable(env: Env, name: string, seen: Seen)
    requires name in env.secrets && env.secrets[name].Str?
    requires Resolve(env, env.secrets[name]) != Some(env.secrets[name])
    ensures var schema := [SchemaField("k", Element(StrKind(Range(None, None)), false))];
            !StaysOnRevalidation(env, schema, [Field("k", Str(SECRET + name))], seen, seen)
  {
    var kind := StrKind(Range(None, None));
    var schema := [SchemaField("k", Element(kind, false))];
    assert Lookup(schema, "k") == Some(schema[0].schema);
    var first, out := Field("k", Str(SECRET + name)), Field("k", env.secrets[name]);
    ValidateOneField(env, schema, first, seen);
    ValidateOneField(env, schema, out, seen);
    assert HasKey([out], "k") by { assert [out][0].key == "k"; }
    hide Lookup, ValidateFields, Resolve;
    assert NothingMissing(schema, [out]);
    assert Validate(env, schema, [first], seen).0 == Some(Dict([out]));
    assert Validate(env, schema, [out], seen).0 != Some(Dict([out]));
  }

  lemma ValidateOneField(env: Env, schema: seq<SchemaField>, f: Field, seen: Seen)
    requires Lookup(schema, f.key).Some?
    ensures ValidateFields(env, schema, [f], seen).0
            == match ValidateElement(env, Lookup(schema, f.key).value, f.value, seen).0
               case Some(v) => Some([Field(f.key, v)])
               case None => None
  {
    assert [f][..0] == [];
    assert ValidateFields(env, schema, [f][..0], seen) == (Some([]), seen);
    forall v: Json
      ensures [] + [Field(f.key, v)] == [Field(f.key, v)]
    {
    }
  }

  // ---------------------------------------------------------------- device paths

  /** The paths of the device values that lie where the schema wants a device. */
  ghost function AcceptedPaths(env: Env, schema: Schema, value: Json): set<Path>
    decreases schema, 1, 0
  {
    match schema
    case Element(kind, _) =>
      var v := Resolve(env, value);
      if kind.DeviceKind? && v.Some? && v.value.Str? then {env.path(v.value.s)} else {}
    case ListOf(items) => if items == [] || !value.List? then {} else ItemPaths(env, items[0], value.items)
    case DictOf(fields) => if !value.Dict? then {} else FieldPaths(env, fields, value.fields)
  }

  ghost function ItemPaths(env: Env, schema: Schema, items: seq<Json>): set<Path>
    decreases schema, 2, |items|
  {
    if items == [] then {}
    else ItemPaths(env, schema, items[..|items| - 1]) + AcceptedPaths(env, schema, items[|items| - 1])
  }

  ghost function FieldPaths(env: Env, schema: seq<SchemaField>, fields: seq<Field>): set<Path>
    decreases schema, 0, |fields|
  {
    if fields == [] then {}
    else
      var f := fields[|fields| - 1];
      var s := Lookup(schema, f.key);
      FieldPaths(env, schema, fields[..|fields| - 1]) + if s.Some? then AcceptedPaths(env, s.value, f.value) else {}
  }

  ghost function DevicesAt(env: Env, paths: set<Path>): set<Device> {
    set p | p in paths && env.device(p).Some? :: env.device(p).value
  }

  // ---------------------------------------------------------------- passwords

  /** The hashes of the non-empty passwords that lie where the schema wants a password. */
  ghost function PasswordHashes(env: Env, schema: Schema, value: Json): set<string>
    decreases schema, 1, 0
  {
    match schema
    case Element(kind, _) =>
      var v := Resolve(env, value);
      if kind.PasswordKind? && v.Some? && v.value.Str? && v.value.s != "" then {env.sha1(v.value.s)} else {}
    case ListOf(items) => if items == [] || !value.List? then {} else ItemHashes(env, items[0], value.items)
    case DictOf(fields) => if !value.Dict? then {} else FieldHashes(env, fields, value.fields)
  }

  ghost function ItemHashes(env: Env, schema: Schema, items: seq<Json>): set<string>
    decreases schema, 2, |items|
  {
    if items == [] then {}
    else ItemHashes(env, schema, items[..|items| - 1]) + PasswordHashes(env, schema, items[|items| - 1])
  }

  ghost function FieldHashes(env: Env, schema: seq<SchemaField>, fields: seq<Field>): set<string>
    decreases schema, 0, |fields|
  {
    if fields == [] then {}
    else
      var f := fields[|fields| - 1];
      var s := Lookup(schema, f.key);
      FieldHashes(env, schema, fields[..|fields| - 1]) + if s.Some? then PasswordHashes(env, s.value, f.value) else {}
  }

  /** What has been seen after a value has been accepted. */
  ghost predicate Noticed(env: Env, before: Seen, paths: set<Path>, hashes: set<string>, after: Seen) {
    after.devices == before.devices + DevicesAt(env, paths) && after.pwned == before.pwned + hashes
  }

  lemma {:induction false} ItemsNotice(env: Env, schema: Schema, items: seq<Json>, seen: Seen)
    requires ValidateItems(env, schema, items, seen).0.Some?
    ensures Noticed(env, seen, ItemPaths(env, schema, items), ItemHashes(env, schema, items),
                    ValidateItems(env, schema, items, seen).1)
    decreases schema, 2, |items|
  {
    if items != [] {
      var n := |items| - 1;
      ItemsNotice(env, schema, items[..n], seen);
      ElementNotices(env, schema, items[n], ValidateItems(env, schema, items[..n], seen).1);
    }
  }

  lemma {:induction false} FieldsNotice(env: Env, schema: seq<SchemaField>, fields: seq<Field>, seen: Seen)
    requires ValidateFields(env, schema, fields, seen).0.Some?
    ensures Noticed(env, seen, FieldPaths(env, schema, fields), FieldHashes(env, schema, fields),
                    ValidateFields(env, schema, fields, seen).1)
    decreases schema, 0, |fields|
  {
    if fields != [] {
      var n := |fields| - 1;
      FieldsNotice(env, schema, fields[..n], seen);
      var s := Lookup(schema, fields[n].key);
      if s.Some? {
        ElementNotices(env, s.value, fields[n].value, ValidateFields(env, schema, fields[..n], seen).1);
      }
    }
  }

  /** An accepted value adds exactly the devices at its accepted paths, and the hashes of its
      passwords. */
  lemma {:induction false} ElementNotices(env: Env, schema: Schema, value: Json, seen: Seen)
    requires ValidateElement(env, schema, value, seen).0.Some?
    ensures Noticed(env, seen, AcceptedPaths(env, schema, value), PasswordHashes(env, schema, value),
                    ValidateElement(env, schema, value, seen).1)
    decreases schema, 1, 0
  {
    match schema {
      case Element(_, _) =>
      case ListOf(items) => ItemsNotice(env, items[0], value.items, seen);
      case DictOf(fields) => FieldsNotice(env, fields, value.fields, seen);
    }
  }

  // ---------------------------------------------------------------- the second traversal

  /** Does the schema element begin with "device"? */
  predicate LooksLikeDevice(kind: Kind) {
    kind.DeviceKind? || (kind.Unknown? && kind.beginsWithDevice)
  }

  /** What the extraction of raw device paths visits: a list only if its schema has one
      element, and then only devices and dicts directly in it. */
  ghost function ExtractedPaths(env: Env, schema: Schema, value: Json): set<Path>
    decreases schema, 1, 0
  {
    match schema
    case Element(kind, _) =>
      if LooksLikeDevice(kind) && Truthy(value) then {env.path(Show(env, value))} else {}
    case ListOf(items) =>
      if |items| != 1 || items[0].ListOf? || !value.List? then {} else ExtractedFromItems(env, items[0], value.items)
    case DictOf(fields) => if !value.Dict? then {} else ExtractedFromFields(env, fields, value.fields)
  }

  ghost function ExtractedFromItems(env: Env, schema: Schema, items: seq<Json>): set<Path>
    decreases schema, 2, |items|
  {
    if items == [] then {}
    else ExtractedFromItems(env, schema, items[..|items| - 1]) + ExtractedPaths(env, schema, items[|items| - 1])
  }

  predicate HasUniqueKeys(fields: seq<Field>) {
    forall i, j :: 0 <= i < j < |fields| ==> fields[i].key != fields[j].key
  }

  function Value(fields: seq<Field>, key: string): Option<Json> {
    if fields == [] then None
    else if fields[|fields| - 1].key == key then Some(fields[|fields| - 1].value)
    else Value(fields[..|fields| - 1], key)
  }

  /** This traversal goes through the schema and looks the options up. */
  ghost function ExtractedFromFields(env: Env, schema: seq<SchemaField>, fields: seq<Field>): set<Path>
    decreases schema, 0, 0
  {
    if schema == [] then {}
    else
      var last := schema[|schema| - 1];
      var v := Value(fields, last.key);
      ExtractedFromFields(env, schema[..|schema| - 1], fields)
      + if v.Some? then ExtractedPaths(env, last.schema, v.value) else {}
  }

  /** Does the extraction look into a list with this schema? */
  predicate IsVisited(items: seq<Schema>) {
    |items| == 1 && !items[0].ListOf?
  }

  /** The device paths of a value fall into parts: those of visited devices written out, those
      of visited devices given in another way, once as the validator looks them up and once as
      they are written, and those in lists that the extraction passes over. */
  datatype Part = Plain | LookedUp | AsWritten | PassedOver

  predicate IsPlain(value: Json) {
    value.Str? && !IsSecret(value) && value.s != ""
  }

  ghost function LeafPaths(env: Env, part: Part, kind: Kind, value: Json): set<Path> {
    match part
    case Plain => if kind.DeviceKind? && IsPlain(value) then {env.path(value.s)} else {}
    case LookedUp => if IsPlain(value) then {} else AcceptedPaths(env, Element(kind, false), value)
    case AsWritten => if IsPlain(value) then {} else ExtractedPaths(env, Element(kind, false), value)
    case PassedOver => {}
  }

  ghost function PartPaths(env: Env, part: Part, schema: Schema, value: Json): set<Path>
    decreases schema, 1, 0
  {
    match schema
    case Element(kind, _) => LeafPaths(env, part, kind, value)
    case ListOf(items) =>
      if items == [] || !value.List? then {}
      else if IsVisited(items) then PartOfItems(env, part, items[0], value.items)
      else if part == PassedOver then ItemPaths(env, items[0], value.items)
      else {}
    case DictOf(fields) => if !value.Dict? then {} else PartOfFields(env, part, fields, value.fields)
  }

  ghost function PartOfItems(env: Env, part: Part, schema: Schema, items: seq<Json>): set<Path>
    decreases schema, 2, |items|
  {
    if items == [] then {}
    else PartOfItems(env, part, schema, items[..|items| - 1]) + PartPaths(env, part, schema, items[|items| - 1])
  }

  ghost function PartOfFields(env: Env, part: Part, schema: seq<SchemaField>, fields: seq<Field>): set<Path>
    decreases schema, 0, |fields|
  {
    if fields == [] then {}
    else
      PartOfFields(env, part, schema, fields[..|fields| - 1])
      + match Lookup(schema, fields[|fields| - 1].key)
        case Some(s) => PartPaths(env, part, s, fields[|fields| - 1].value)
        case None => {}
  }

  ghost predicate UniqueSchemaKeys(fields: seq<SchemaField>) {
    forall i, j :: 0 <= i < j < |fields| ==> fields[i].key != fields[j].key
  }

  /** The schema's dicts have each key once. */
  ghost predicate ProperSchema(schema: Schema) {
    match schema
    case Element(_, _) => true
    case ListOf(items) => forall i :: 0 <= i < |items| ==> ProperSchema(items[i])
    case DictOf(fields) =>
      UniqueSchemaKeys(fields) && forall i :: 0 <= i < |fields| ==> ProperSchema(fields[i].schema)
  }

  /** The value's dicts have each key once. */
  ghost predicate ProperValue(value: Json) {
    match value
    case List(items) => forall i :: 0 <= i < |items| ==> ProperValue(items[i])
    case Dict(fields) => HasUniqueKeys(fields) && forall i :: 0 <= i < |fields| ==> ProperValue(fields[i].value)
    case _ => true
  }

  lemma {:induction false} LookupIsUnique(schema: seq<SchemaField>, j: nat)
    requires UniqueSchemaKeys(schema) && j < |schema|
    ensures Lookup(schema, schema[j].key) == Some(schema[j].schema)
  {
    var n := |schema| - 1;
    if j < n {
      assert schema[..n][j] == schema[j];
      LookupIsUnique(schema[..n], j);
    }
  }

  lemma {:induction false} ValueIsUnique(fields: seq<Field>, i: nat)
    requires HasUniqueKeys(fields) && i < |fields|
    ensures Value(fields, fields[i].key) == Some(fields[i].value)
  {
    var n := |fields| - 1;
    if i < n {
      assert fields[..n][i] == fields[i];
      ValueIsUnique(fields[..n], i);
    }
  }

  lemma {:induction false} ValueIsThere(fields: seq<Field>, key: string)
    ensures Value(fields, key).Some? ==> Field(key, Value(fields, key).value) in fields
    ensures Value(fields, key).None? ==> forall i :: 0 <= i < |fields| ==> fields[i].key != key
  {
    if fields != [] {
      ValueIsThere(fields[..|fields| - 1], key);
    }
  }

  /** The accepted paths of one field. */
  ghost function FieldAccepts(env: Env, schema: seq<SchemaField>, f: Field): set<Path> {
    var s := Lookup(schema, f.key);
    if s.Some? then AcceptedPaths(env, s.value, f.value) else {}
  }

  ghost function FieldPart(env: Env, part: Part, schema: seq<SchemaField>, f: Field): set<Path> {
    var s := Lookup(schema, f.key);
    if s.Some? then PartPaths(env, part, s.value, f.value) else {}
  }

  ghost function FieldExtracts(env: Env, s: SchemaField, fields: seq<Field>): set<Path> {
    var v := Value(fields, s.key);
    if v.Some? then ExtractedPaths(env, s.schema, v.value) else {}
  }

  lemma {:induction false} FieldPathsAre(env: Env, schema: seq<SchemaField>, fields: seq<Field>, p: Path)
    ensures p in FieldPaths(env, schema, fields)
            <==> exists i :: 0 <= i < |fields| && p in FieldAccepts(env, schema, fields[i])
    decreases |fields|
  {
    if fields != [] {
      var n := |fields| - 1;
      FieldPathsAre(env, schema, fields[..n], p);
      assert forall i :: 0 <= i < n ==> fields[..n][i] == fields[i];
    }
  }

  lemma {:induction false} FieldPartsAre(env: Env, part: Part, schema: seq<SchemaField>, fields: seq<Field>, p: Path)
    ensures p in PartOfFields(env, part, schema, fields)
            <==> exists i :: 0 <= i < |fields| && p in FieldPart(env, part, schema, fields[i])
    decreases |fields|
  {
    if fields != [] {
      var n := |fields| - 1;
      FieldPartsAre(env, part, schema, fields[..n], p);
      assert forall i :: 0 <= i < n ==> fields[..n][i] == fields[i];
    }
  }

  lemma {:induction false} ExtractedFromFieldsAre(env: Env, schema: seq<SchemaField>, fields: seq<Field>, p: Path)
    ensures p in ExtractedFromFields(env, schema, fields)
            <==> exists j :: 0 <= j < |schema| && p in FieldExtracts(env, schema[j], fields)
    decreases |schema|
  {
    if schema != [] {
      var n := |schema| - 1;
      ExtractedFromFieldsAre(env, schema[..n], fields, p);
      assert forall j :: 0 <= j < n ==> schema[..n][j] == schema[j];
    }
  }

  /** The parts make up what the validator accepts, and what the extraction finds. */
  ghost predicate Splits(env: Env, schema: Schema, value: Json) {
    && AcceptedPaths(env, schema, value)
       == PartPaths(env, Plain, schema, value) + PartPaths(env, LookedUp, schema, value)
          + PartPaths(env, PassedOver, schema, value)
    && ExtractedPaths(env, schema, value)
       == PartPaths(env, Plain, schema, value) + PartPaths(env, AsWritten, schema, value)
  }

  lemma {:induction false} ItemsSplit(env: Env, schema: Schema, items: seq<Json>)
    requires ProperSchema(schema)
    requires forall i :: 0 <= i < |items| ==> Conforms(env, schema, items[i]) && ProperValue(items[i])
    ensures ItemPaths(env, schema, items)
            == PartOfItems(env, Plain, schema, items) + PartOfItems(env, LookedUp, schema, items)
               + PartOfItems(env, PassedOver, schema, items)
    ensures ExtractedFromItems(env, schema, items)
            == PartOfItems(env, Plain, schema, items) + PartOfItems(env, AsWritten, schema, items)
    decreases schema, 2, |items|
  {
    if items != [] {
      var init, last := items[..|items| - 1], items[|items| - 1];
      ItemsSplit(env, schema, init);
      PathsSplit(env, schema, last);
      hide Conforms, ProperSchema, ProperValue, AcceptedPaths, PartPaths, ExtractedPaths;
      Unions(ItemPaths(env, schema, init), AcceptedPaths(env, schema, last),
             PartOfItems(env, Plain, schema, init), PartOfItems(env, LookedUp, schema, init),
             PartOfItems(env, PassedOver, schema, init),
             PartPaths(env, Plain, schema, last), PartPaths(env, LookedUp, schema, last),
             PartPaths(env, PassedOver, schema, last));
      Unions(ExtractedFromItems(env, schema, init), ExtractedPaths(env, schema, last),
             PartOfItems(env, Plain, schema, init), PartOfItems(env, AsWritten, schema, init), {},
             PartPaths(env, Plain, schema, last), PartPaths(env, AsWritten, schema, last), {});
    }
  }

  lemma Unions(x: set<Path>, y: set<Path>, a: set<Path>, b: set<Path>, c: set<Path>,
               a': set<Path>, b': set<Path>, c': set<Path>)
    requires x == a + b + c && y == a' + b' + c'
    ensures x + y == (a + a') + (b + b') + (c + c')
  {
  }

  lemma FieldsAcceptedSplit(env: Env, schema: seq<SchemaField>, fields: seq<Field>)
    requires forall i :: 0 <= i < |fields| && Lookup(schema, fields[i].key).Some? ==>
               Splits(env, Lookup(schema, fields[i].key).value, fields[i].value)
    ensures FieldPaths(env, schema, fields)
            == PartOfFields(env, Plain, schema, fields) + PartOfFields(env, LookedUp, schema, fields)
               + PartOfFields(env, PassedOver, schema, fields)
  {
    forall p: Path
      ensures p in FieldPaths(env, schema, fields)
              <==> p in PartOfFields(env, Plain, schema, fields) || p in PartOfFields(env, LookedUp, schema, fields)
                   || p in PartOfFields(env, PassedOver, schema, fields)
    {
      FieldPathsAre(env, schema, fields, p);
      FieldPartsAre(env, Plain, schema, fields, p);
      FieldPartsAre(env, LookedUp, schema, fields, p);
      FieldPartsAre(env, PassedOver, schema, fields, p);
      forall i | 0 <= i < |fields|
        ensures p in FieldAccepts(env, schema, fields[i])
                <==> p in FieldPart(env, Plain, schema, fields[i]) || p in FieldPart(env, LookedUp, schema, fields[i])
                     || p in FieldPart(env, PassedOver, schema, fields[i])
      {
      }
    }
  }

  /** The schema-driven traversal meets the same fields as the value-driven one. */
  lemma FieldsExtractedSplit(env: Env, schema: seq<SchemaField>, fields: seq<Field>)
    requires UniqueSchemaKeys(schema) && HasUniqueKeys(fields)
    requires forall i :: 0 <= i < |fields| && Lookup(schema, fields[i].key).Some? ==>
               Splits(env, Lookup(schema, fields[i].key).value, fields[i].value)
    ensures ExtractedFromFields(env, schema, fields)
            == PartOfFields(env, Plain, schema, fields) + PartOfFields(env, AsWritten, schema, fields)
  {
    forall p: Path
      ensures p in ExtractedFromFields(env, schema, fields)
              <==> p in PartOfFields(env, Plain, schema, fields) || p in PartOfFields(env, AsWritten, schema, fields)
    {
      ExtractedFromFieldsAre(env, schema, fields, p);
      FieldPartsAre(env, Plain, schema, fields, p);
      FieldPartsAre(env, AsWritten, schema, fields, p);
      if i :| 0 <= i < |fields|
              && (p in FieldPart(env, Plain, schema, fields[i]) || p in FieldPart(env, AsWritten, schema, fields[i])) {
        ValueIsUnique(fields, i);
        var s := Lookup(schema, fields[i].key).value;
        var j :| 0 <= j < |schema| && schema[j] == SchemaField(fields[i].key, s);
        assert p in FieldExtracts(env, schema[j], fields);
      }
      if j :| 0 <= j < |schema| && p in FieldExtracts(env, schema[j], fields) {
        LookupIsUnique(schema, j);
        ValueIsThere(fields, schema[j].key);
        var i :| 0 <= i < |fields| && fields[i] == Field(schema[j].key, Value(fields, schema[j].key).value);
        assert p in FieldPart(env, Plain, schema, fields[i]) || p in FieldPart(env, AsWritten, schema, fields[i]);
      }
    }
  }

  lemma FieldIsProper(schema: seq<SchemaField>, key: string)
    requires ProperSchema(DictOf(schema)) && Lookup(schema, key).Some?
    ensures ProperSchema(Lookup(schema, key).value)
  {
    var j :| 0 <= j < |schema| && schema[j] == SchemaField(key, Lookup(schema, key).value);
    assert ProperSchema(schema[j].schema);
  }

  /** The two traversals compared, for every conforming value. */
  lemma {:induction false} PathsSplit(env: Env, schema: Schema, value: Json)
    requires ProperSchema(schema) && Conforms(env, schema, value) && ProperValue(value)
    ensures Splits(env, schema, value)
    decreases schema, 1, 0
  {
    match schema {
      case Element(_, _) =>
      case ListOf(items) =>
        if IsVisited(items) {
          ItemsSplit(env, items[0], value.items);
        }
      case DictOf(fields) =>
        forall i | 0 <= i < |value.fields| && Lookup(fields, value.fields[i].key).Some?
          ensures Splits(env, Lookup(fields, value.fields[i].key).value, value.fields[i].value)
        {
          FieldIsProper(fields, value.fields[i].key);
          PathsSplit(env, Lookup(fields, value.fields[i].key).value, value.fields[i].value);
        }
        FieldsAcceptedSplit(env, fields, value.fields);
        FieldsExtractedSplit(env, fields, value.fields);
    }
  }

  // ---------------------------------------------------------------- what the extraction finds

  /** The extraction looks at this value and reads a path there. */
  ghost predicate FoundIn(env: Env, schema: Schema, value: Json, p: Path)
    decreases schema
  {
    match schema
    case Element(kind, _) =>
      && (kind.DeviceKind? || kind == Unknown(true))
      && !IsEmpty(value)
      && exists text :: ReadsAsText(env, value, text) && p == env.path(text)
    case ListOf(items) =>
      && |items| == 1 && !items[0].ListOf? && value.List?
      && exists i :: 0 <= i < |value.items| && FoundIn(env, items[0], value.items[i], p)
    case DictOf(fields) =>
      value.Dict? && exists j :: 0 <= j < |fields| && FoundAt(env, fields, j, value.fields, p)
  }

  ghost predicate FoundAt(env: Env, schema: seq<SchemaField>, j: int, fields: seq<Field>, p: Path)
    requires 0 <= j < |schema|
    decreases schema, 0
  {
    exists i :: 0 <= i < |fields| && fields[i].key == schema[j].key && FoundIn(env, schema[j].schema, fields[i].value, p)
  }

  lemma {:induction false} ItemsFoundExactly(env: Env, schema: Schema, items: seq<Json>, p: Path)
    requires forall i :: 0 <= i < |items| ==> ProperValue(items[i])
    ensures p in ExtractedFromItems(env, schema, items) <==> exists i :: 0 <= i < |items| && FoundIn(env, schema, items[i], p)
    decreases schema, 2, |items|
  {
    if items != [] {
      var n := |items| - 1;
      ItemsFoundExactly(env, schema, items[..n], p);
      FoundExactly(env, schema, items[n], p);
      assert forall i :: 0 <= i < n ==> items[..n][i] == items[i];
      hide FoundIn, ExtractedPaths, ProperValue;
    }
  }

  lemma FieldFoundExactly(env: Env, schema: seq<SchemaField>, j: nat, fields: seq<Field>, p: Path)
    requires j < |schema| && HasUniqueKeys(fields)
    requires forall i :: 0 <= i < |fields| && fields[i].key == schema[j].key ==>
               (p in ExtractedPaths(env, schema[j].schema, fields[i].value)
                <==> FoundIn(env, schema[j].schema, fields[i].value, p))
    ensures p in FieldExtracts(env, schema[j], fields) <==> FoundAt(env, schema, j, fields, p)
  {
    ValueIsThere(fields, schema[j].key);
    hide FoundIn, ExtractedPaths;
    if i :| 0 <= i < |fields| && fields[i].key == schema[j].key {
      ValueIsUnique(fields, i);
    }
  }

  /** For any value, valid or not: the extraction finds exactly the paths at devices that are not
      empty, in dicts, and directly in lists whose schema has one element. */
  lemma {:induction false} FoundExactly(env: Env, schema: Schema, value: Json, p: Path)
    requires ProperValue(value)
    ensures p in ExtractedPaths(env, schema, value) <==> FoundIn(env, schema, value, p)
    decreases schema, 1, 0
  {
    match schema {
      case Element(_, _) =>
        TruthyIsNotEmpty(value);
        assert ReadsAsText(env, value, Show(env, value));
      case ListOf(items) =>
        if |items| == 1 && !items[0].ListOf? && value.List? {
          ItemsFoundExactly(env, items[0], value.items, p);
        }
      case DictOf(fields) =>
        if value.Dict? {
          forall j: nat | j < |fields|
            ensures p in FieldExtracts(env, fields[j], value.fields) <==> FoundAt(env, fields, j, value.fields, p)
          {
            forall i | 0 <= i < |value.fields|
              ensures p in ExtractedPaths(env, fields[j].schema, value.fields[i].value)
                      <==> FoundIn(env, fields[j].schema, value.fields[i].value, p)
            {
              FoundExactly(env, fields[j].schema, value.fields[i].value, p);
            }
            FieldFoundExactly(env, fields, j, value.fields, p);
          }
          ExtractedFromFieldsAre(env, fields, value.fields, p);
        }
    }
  }

  /** The paths the extraction reports for a dict of options. */
  ghost function DevicePaths(env: Env, schema: seq<SchemaField>, options: seq<Field>): set<Path> {
    ExtractedFromFields(env, schema, options)
  }

  /** The parts of the device paths in a dict of options. */
  ghost function OptionPaths(env: Env, part: Part, schema: seq<SchemaField>, options: seq<Field>): set<Path> {
    PartPaths(env, part, DictOf(schema), Dict(options))
  }

  /** For options that validate: which devices the validator finds, which paths the extraction
      finds, and when the two sets of paths are the same. */
  lemma ExtractionAgreesWithValidation(env: Env, schema: seq<SchemaField>, options: seq<Field>, seen: Seen)
    requires ProperSchema(DictOf(schema)) && ProperValue(Dict(options))
    requires Validate(env, schema, options, seen).0.Some?
    ensures var accepted := AcceptedPaths(env, DictOf(schema), Dict(options));
            var extracted := DevicePaths(env, schema, options);
            && Validate(env, schema, options, seen).1.devices == seen.devices + DevicesAt(env, accepted)
            && accepted == OptionPaths(env, Plain, schema, options) + OptionPaths(env, LookedUp, schema, options)
                           + OptionPaths(env, PassedOver, schema, options)
            && extracted == OptionPaths(env, Plain, schema, options) + OptionPaths(env, AsWritten, schema, options)
            && (extracted == accepted <==>
                  && OptionPaths(env, PassedOver, schema, options) <= extracted
                  && OptionPaths(env, LookedUp, schema, options) <= extracted
                  && OptionPaths(env, AsWritten, schema, options) <= accepted)
  {
    ElementConforms(env, DictOf(schema), Dict(options), seen);
    PathsSplit(env, DictOf(schema), Dict(options));
    ElementNotices(env, DictOf(schema), Dict(options), seen);
  }

  // ---------------------------------------------------------------- devices given as secrets

  /** No device lies at the empty path, or at one that spells a reference to a secret. */
  ghost predicate NoOddDevices(env: Env) {
    forall s: string :: s == "" || IsSecret(Str(s)) ==> env.device(env.path(s)).None?
  }

  /** A device that the extraction looks at is given as a secret. */
  ghost predicate SecretDevice(schema: Schema, value: Json)
    decreases schema
  {
    match schema
    case Element(kind, _) => kind.DeviceKind? && IsSecret(value)
    case ListOf(items) =>
      IsVisited(items) && value.List? && exists i :: 0 <= i < |value.items| && SecretDevice(items[0], value.items[i])
    case DictOf(fields) =>
      value.Dict? && exists i :: 0 <= i < |value.fields| && SecretDeviceField(fields, value.fields[i])
  }

  ghost predicate SecretDeviceField(schema: seq<SchemaField>, f: Field)
    decreases schema
  {
    var s := Lookup(schema, f.key);
    s.Some? && SecretDevice(s.value, f.value)
  }

  ghost predicate OnlySecretsDiffer(env: Env, schema: Schema, value: Json) {
    && (PartPaths(env, AsWritten, schema, value) != {} <==> SecretDevice(schema, value))
    && (PartPaths(env, LookedUp, schema, value) != {} <==> SecretDevice(schema, value))
    && (forall p :: p in PartPaths(env, AsWritten, schema, value) ==> env.device(p).None?)
    && (forall p :: p in AcceptedPaths(env, schema, value) ==> env.device(p).Some?)
  }

  lemma {:induction false} ItemsOnlySecretsDiffer(env: Env, schema: Schema, items: seq<Json>)
    requires NoOddDevices(env) && forall i :: 0 <= i < |items| ==> Conforms(env, schema, items[i])
    ensures PartOfItems(env, AsWritten, schema, items) != {} <==>
              exists i :: 0 <= i < |items| && SecretDevice(schema, items[i])
    ensures PartOfItems(env, LookedUp, schema, items) != {} <==>
              exists i :: 0 <= i < |items| && SecretDevice(schema, items[i])
    ensures forall p :: p in PartOfItems(env, AsWritten, schema, items) ==> env.device(p).None?
    ensures forall p :: p in ItemPaths(env, schema, items) ==> env.device(p).Some?
    decreases schema, 2, |items|
  {
    if items != [] {
      ItemsOnlySecretsDiffer(env, schema, items[..|items| - 1]);
      DiffersOnlyBySecrets(env, schema, items[|items| - 1]);
      LastSecretItem(schema, items);
      hide NoOddDevices, Conforms, SecretDevice, PartPaths;
    }
  }

  lemma LastSecretItem(schema: Schema, items: seq<Json>)
    requires items != []
    ensures var n := |items| - 1;
            (exists i :: 0 <= i < |items| && SecretDevice(schema, items[i]))
            <==> (exists i :: 0 <= i < n && SecretDevice(schema, items[..n][i])) || SecretDevice(schema, items[n])
  {
    hide SecretDevice;
    var n := |items| - 1;
    if i :| 0 <= i < n && SecretDevice(schema, items[..n][i]) {
      assert SecretDevice(schema, items[i]);
    }
    if i :| 0 <= i < |items| && SecretDevice(schema, items[i]) {
      assert i < n ==> items[..n][i] == items[i];
    }
  }

  lemma {:induction false} FieldsOnlySecretsDiffer(env: Env, schema: seq<SchemaField>, fields: seq<Field>)
    requires NoOddDevices(env) && forall i :: 0 <= i < |fields| ==> FieldConforms(env, schema, fields[i])
    ensures PartOfFields(env, AsWritten, schema, fields) != {} <==>
              exists i :: 0 <= i < |fields| && SecretDeviceField(schema, fields[i])
    ensures PartOfFields(env, LookedUp, schema, fields) != {} <==>
              exists i :: 0 <= i < |fields| && SecretDeviceField(schema, fields[i])
    ensures forall p :: p in PartOfFields(env, AsWritten, schema, fields) ==> env.device(p).None?
    ensures forall p :: p in FieldPaths(env, schema, fields) ==> env.device(p).Some?
    decreases schema, 0, |fields|
  {
    if fields != [] {
      var n := |fields| - 1;
      FieldsOnlySecretsDiffer(env, schema, fields[..n]);
      var s := Lookup(schema, fields[n].key);
      assert FieldConforms(env, schema, fields[n]);
      if s.Some? {
        DiffersOnlyBySecrets(env, s.value, fields[n].value);
      }
      LastSecretField(schema, fields);
      hide NoOddDevices, FieldConforms, Conforms, SecretDevice, PartPaths;
    }
  }

  lemma LastSecretField(schema: seq<SchemaField>, fields: seq<Field>)
    requires fields != []
    ensures var n := |fields| - 1;
            (exists i :: 0 <= i < |fields| && SecretDeviceField(schema, fields[i]))
            <==> (exists i :: 0 <= i < n && SecretDeviceField(schema, fields[..n][i])) || SecretDeviceField(schema, fields[n])
  {
    hide SecretDeviceField;
    var n := |fields| - 1;
    if i :| 0 <= i < n && SecretDeviceField(schema, fields[..n][i]) {
      assert SecretDeviceField(schema, fields[i]);
    }
    if i :| 0 <= i < |fields| && SecretDeviceField(schema, fields[i]) {
      assert i < n ==> fields[..n][i] == fields[i];
    }
  }

  /** A visited device contributes differently to the two sets exactly if it is a secret. */
  lemma {:induction false} DiffersOnlyBySecrets(env: Env, schema: Schema, value: Json)
    requires NoOddDevices(env) && Conforms(env, schema, value)
    ensures OnlySecretsDiffer(env, schema, value)
    decreases schema, 1, 0
  {
    match schema {
      case Element(_, _) =>
      case ListOf(items) =>
        ItemsOnlySecretsDiffer(env, items[0], value.items);
      case DictOf(fields) =>
        assert forall i :: 0 <= i < |value.fields| ==> FieldConforms(env, fields, value.fields[i]);
        FieldsOnlySecretsDiffer(env, fields, value.fields);
    }
  }

  /** The extraction finds exactly the accepted device paths if and only if no visited device
      is given as a secret and every device in a passed-over list is also written out at a
      place that is visited. */
  lemma ExtractionAgreesExactly(env: Env, schema: seq<SchemaField>, options: seq<Field>, seen: Seen)
    requires ProperSchema(DictOf(schema)) && ProperValue(Dict(options)) && NoOddDevices(env)
    requires Validate(env, schema, options, seen).0.Some?
    ensures DevicePaths(env, schema, options) == AcceptedPaths(env, DictOf(schema), Dict(options))
            <==> && !SecretDevice(DictOf(schema), Dict(options))
                 && OptionPaths(env, PassedOver, schema, options) <= OptionPaths(env, Plain, schema, options)
    ensures !HidesDevice(DictOf(schema)) ==> OptionPaths(env, PassedOver, schema, options) == {}
  {
    if !HidesDevice(DictOf(schema)) {
      NothingHeld(env, DictOf(schema), Dict(options), true);
      assert HeldPaths(env, DictOf(schema), Dict(options), true) == OptionPaths(env, PassedOver, schema, options);
    }
    ElementConforms(env, DictOf(schema), Dict(options), seen);
    ExtractionAgreesWithValidation(env, schema, options, seen);
    DiffersOnlyBySecrets(env, DictOf(schema), Dict(options));
    hide *;
    SetsAgree(env, AcceptedPaths(env, DictOf(schema), Dict(options)), DevicePaths(env, schema, options),
              OptionPaths(env, Plain, schema, options), OptionPaths(env, LookedUp, schema, options),
              OptionPaths(env, PassedOver, schema, options), OptionPaths(env, AsWritten, schema, options));
  }

  lemma SetsAgree(env: Env, accepted: set<Path>, extracted: set<Path>,
                  plain: set<Path>, lookedUp: set<Path>, passedOver: set<Path>, asWritten: set<Path>)
    requires accepted == plain + lookedUp + passedOver && extracted == plain + asWritten
    requires asWritten == {} <==> lookedUp == {}
    requires forall p :: p in asWritten ==> env.device(p).None?
    requires forall p :: p in accepted ==> env.device(p).Some?
    ensures extracted == accepted <==> asWritten == {} && passedOver <= plain
  {
    if extracted == accepted {
      assert forall p :: p in asWritten ==> p in accepted;
      assert forall p :: p in passedOver ==> p in extracted;
    }
  }

  /** A device given as a secret: the validator finds the device, the extraction reports the
      reference as if it were a path. */
  lemma SecretDevicesAreNotExtracted(env: Env, name: string, p: string, seen: Seen)
    requires name in env.secrets && env.secrets[name] == Str(p) && env.device(env.path(p)).Some?
    ensures var schema := [SchemaField("d", Element(DeviceKind(None), false))];
            var options := [Field("d", Str(SECRET + name))];
            && Validate(env, schema, options, seen).0.Some?
            && Validate(env, schema, options, seen).1.devices == seen.devices + {env.device(env.path(p)).value}
            && DevicePaths(env, schema, options) == {env.path(SECRET + name)}
  {
    var device := Element(DeviceKind(None), false);
    var schema := [SchemaField("d", device)];
    var options := [Field("d", Str(SECRET + name))];
    assert Lookup(schema, "d") == Some(device);
    assert Conforms(env, device, options[0].value);
    assert HasKey(options, "d") by { assert options[0].key == "d"; }
    assert Conforms(env, DictOf(schema), Dict(options));
    ElementConforms(env, DictOf(schema), Dict(options), seen);
    ElementNotices(env, DictOf(schema), Dict(options), seen);
    assert options[..0] == [] && schema[..0] == [];
    assert FieldPaths(env, schema, options[..0]) == {};
    assert AcceptedPaths(env, device, options[0].value) == {env.path(p)};
    assert FieldPaths(env, schema, options) == {env.path(p)};
    assert DevicesAt(env, {env.path(p)}) == {env.device(env.path(p)).value};
    assert ExtractedFromFields(env, schema[..0], options) == {};
    assert ExtractedPaths(env, device, options[0].value) == {env.path(SECRET + name)};
  }

  // ---------------------------------------------------------------- lists passed over

  /** The device paths of a value, or only those in lists that are passed over. */
  ghost function HeldPaths(env: Env, schema: Schema, value: Json, passedOver: bool): set<Path> {
    if passedOver then PartPaths(env, PassedOver, schema, value) else AcceptedPaths(env, schema, value)
  }

  /** Does the validator look for a device somewhere in values of this schema, or in a list there
      that the extraction passes over? */
  ghost predicate MayHold(schema: Schema, passedOver: bool) {
    match schema
    case Element(kind, _) => !passedOver && kind.DeviceKind?
    case ListOf(items) => items != [] && MayHold(items[0], passedOver && IsVisited(items))
    case DictOf(fields) => exists i :: 0 <= i < |fields| && MayHold(fields[i].schema, passedOver)
  }

  /** Is there a list that the extraction passes over, with a device in its first element? */
  ghost predicate HidesDevice(schema: Schema) {
    MayHold(schema, true)
  }

  lemma {:induction false} NothingHeldInItems(env: Env, schema: Schema, items: seq<Json>, passedOver: bool)
    requires !MayHold(schema, passedOver)
    ensures (if passedOver then PartOfItems(env, PassedOver, schema, items) else ItemPaths(env, schema, items)) == {}
    decreases schema, 2, |items|
  {
    if items != [] {
      NothingHeldInItems(env, schema, items[..|items| - 1], passedOver);
      NothingHeld(env, schema, items[|items| - 1], passedOver);
    }
  }

  lemma {:induction false} NothingHeldInFields(
    env: Env, schema: seq<SchemaField>, fields: seq<Field>, passedOver: bool)
    requires !MayHold(DictOf(schema), passedOver)
    ensures (if passedOver then PartOfFields(env, PassedOver, schema, fields) else FieldPaths(env, schema, fields)) == {}
    decreases schema, 0, |fields|
  {
    if fields != [] {
      var f := fields[|fields| - 1];
      NothingHeldInFields(env, schema, fields[..|fields| - 1], passedOver);
      var s := Lookup(schema, f.key);
      if s.Some? {
        var j :| 0 <= j < |schema| && schema[j] == SchemaField(f.key, s.value);
        assert !MayHold(schema[j].schema, passedOver);
        NothingHeld(env, s.value, f.value, passedOver);
      }
    }
  }

  /** Where the schema has no device there are no paths, and where it hides none, none is passed
      over. */
  lemma {:induction false} NothingHeld(env: Env, schema: Schema, value: Json, passedOver: bool)
    requires !MayHold(schema, passedOver)
    ensures HeldPaths(env, schema, value, passedOver) == {}
    decreases schema, 1, 0
  {
    match schema {
      case Element(_, _) =>
      case ListOf(items) =>
        if items != [] && value.List? {
          NothingHeldInItems(env, items[0], value.items, passedOver && IsVisited(items));
        }
      case DictOf(fields) =>
        if value.Dict? {
          NothingHeldInFields(env, fields, value.fields, passedOver);
        }
    }
  }

  lemma OneItemIsHeld(env: Env, items: seq<Schema>, v: Json, passedOver: bool)
    requires items != []
    ensures HeldPaths(env, ListOf(items), List([v]), passedOver)
            == HeldPaths(env, items[0], v, passedOver && IsVisited(items))
  {
    assert [v][..0] == [];
    assert ItemPaths(env, items[0], [v]) == ItemPaths(env, items[0], []) + AcceptedPaths(env, items[0], v);
    assert PartOfItems(env, PassedOver, items[0], [v])
        == PartOfItems(env, PassedOver, items[0], []) + PartPaths(env, PassedOver, items[0], v);
  }

  lemma {:induction false} SomeHeldValue(env: Env, schema: Schema, passedOver: bool) returns (value: Json)
    requires MayHold(schema, passedOver) && ProperSchema(schema)
    ensures HeldPaths(env, schema, value, passedOver) != {}
    decreases schema
  {
    match schema {
      case Element(_, _) =>
        value := Str("x");
      case ListOf(items) =>
        var v := SomeHeldValue(env, items[0], passedOver && IsVisited(items));
        OneItemIsHeld(env, items, v, passedOver);
        value := List([v]);
      case DictOf(fields) =>
        var i: nat :| i < |fields| && MayHold(fields[i].schema, passedOver);
        var v := SomeHeldValue(env, fields[i].schema, passedOver);
        LookupIsUnique(fields, i);
        var f := Field(fields[i].key, v);
        assert [f][..0] == [];
        assert FieldPaths(env, fields, [f]) == FieldPaths(env, fields, []) + AcceptedPaths(env, fields[i].schema, v);
        assert PartOfFields(env, PassedOver, fields, [f])
            == PartOfFields(env, PassedOver, fields, []) + PartPaths(env, PassedOver, fields[i].schema, v);
        value := Dict([f]);
    }
  }

  /** The extraction passes over devices of some options exactly if the schema hides a device
      in a list that it does not visit. */
  lemma PassesOverExactlyIfHidden(env: Env, schema: Schema)
    requires ProperSchema(schema)
    ensures HidesDevice(schema) <==> exists value :: PartPaths(env, PassedOver, schema, value) != {}
  {
    if HidesDevice(schema) {
      var value := SomeHeldValue(env, schema, true);
      assert HeldPaths(env, schema, value, true) == PartPaths(env, PassedOver, schema, value);
    } else {
      forall value
        ensures PartPaths(env, PassedOver, schema, value) == {}
      {
        NothingHeld(env, schema, value, true);
        assert HeldPaths(env, schema, value, true) == PartPaths(env, PassedOver, schema, value);
      }
    }
  }

  // ---------------------------------------------------------------- which options are passed over

  ghost predicate Fits(env: Env, schema: Schema, value: Json) {
    Conforms(env, schema, value) && ProperValue(value)
  }

  /** Is there any value for this schema?  A list may be empty, and a dict needs only what may
      not be missing. */
  ghost predicate Satisfiable(env: Env, schema: Schema) {
    match schema
    case Element(_, _) => exists v :: Fits(env, schema, v)
    case ListOf(items) => items != []
    case DictOf(fields) =>
      forall i :: 0 <= i < |fields| ==> MayBeMissing(fields[i].schema) || Satisfiable(env, fields[i].schema)
  }

  ghost predicate CanBeGiven(env: Env, f: SchemaField) {
    MayBeMissing(f.schema) || Satisfiable(env, f.schema)
  }

  /** The fields of a dict other than the `i`-th can be given or may be missing. */
  ghost predicate OthersCanBeGiven(env: Env, fields: seq<SchemaField>, i: int) {
    forall j :: 0 <= j < |fields| && j != i ==> CanBeGiven(env, fields[j])
  }

  /** Can a value for this schema hold a device, and so in a list that is passed over? */
  ghost predicate CanHold(env: Env, schema: Schema, passedOver: bool) {
    match schema
    case Element(kind, _) => !passedOver && kind.DeviceKind? && Satisfiable(env, schema)
    case ListOf(items) => items != [] && CanHold(env, items[0], passedOver && IsVisited(items))
    case DictOf(fields) =>
      exists i :: 0 <= i < |fields| && CanHold(env, fields[i].schema, passedOver) && OthersCanBeGiven(env, fields, i)
  }

  ghost predicate Holds(env: Env, schema: Schema, value: Json, passedOver: bool) {
    Fits(env, schema, value) && HeldPaths(env, schema, value, passedOver) != {}
  }

  /** The field is for the `j`-th key of the schema. */
  ghost predicate IsFor(env: Env, schema: seq<SchemaField>, j: nat, f: Field)
    requires j < |schema|
  {
    f.key == schema[j].key && Fits(env, schema[j].schema, f.value)
  }

  ghost predicate IsForOneOf(env: Env, schema: seq<SchemaField>, n: nat, f: Field)
    requires n <= |schema|
  {
    exists j: nat :: j < n && IsFor(env, schema, j, f)
  }

  /** The fields chosen for the first `n` keys of a schema: each required key, and the `i`-th
      with the given value. */
  ghost predicate Chosen(env: Env, schema: seq<SchemaField>, n: nat, i: int, v: Json, fields: seq<Field>) {
    && n <= |schema|
    && (forall k :: 0 <= k < |fields| ==> IsForOneOf(env, schema, n, fields[k]))
    && HasUniqueKeys(fields)
    && (forall j: nat :: j < n && j != i ==> HasKey(fields, schema[j].key) || MayBeMissing(schema[j].schema))
    && (0 <= i < n ==> exists k :: 0 <= k < |fields| && fields[k] == Field(schema[i].key, v))
  }

  lemma ChosenKeysAreOld(env: Env, schema: seq<SchemaField>, n: nat, i: int, v: Json, fields: seq<Field>, k: nat)
    requires Chosen(env, schema, n, i, v, fields) && n < |schema| && UniqueSchemaKeys(schema) && k < |fields|
    ensures fields[k].key != schema[n].key
    ensures IsForOneOf(env, schema, n + 1, fields[k])
  {
    hide Fits;
    assert IsForOneOf(env, schema, n, fields[k]);
    var j: nat :| j < n && IsFor(env, schema, j, fields[k]);
  }

  lemma ChosenGrows(env: Env, schema: seq<SchemaField>, n: nat, i: int, v: Json, fields: seq<Field>, w: Json)
    requires Chosen(env, schema, n, i, v, fields) && n < |schema| && UniqueSchemaKeys(schema)
    requires Fits(env, schema[n].schema, w) && (n == i ==> w == v)
    ensures Chosen(env, schema, n + 1, i, v, fields + [Field(schema[n].key, w)])
  {
    hide Fits, MayBeMissing;
    var last := Field(schema[n].key, w);
    var all := fields + [last];
    forall k: nat | k < |all|
      ensures IsForOneOf(env, schema, n + 1, all[k])
      ensures k < |fields| ==> all[k].key != last.key
    {
      if k < |fields| {
        ChosenKeysAreOld(env, schema, n, i, v, fields, k);
      } else {
        assert IsFor(env, schema, n, all[k]);
      }
    }
    forall j: nat | j < n + 1 && j != i
      ensures HasKey(all, schema[j].key) || MayBeMissing(schema[j].schema)
    {
      KeyOfAppend(fields, last, schema[j].key);
    }
    if 0 <= i < n {
      var k :| 0 <= k < |fields| && fields[k] == Field(schema[i].key, v);
      assert all[k] == fields[k];
    } else if i == n {
      assert all[|fields|] == Field(schema[i].key, v);
    }
  }

  lemma ChosenSkips(env: Env, schema: seq<SchemaField>, n: nat, i: int, v: Json, fields: seq<Field>)
    requires Chosen(env, schema, n, i, v, fields) && n < |schema| && UniqueSchemaKeys(schema)
    requires n != i && MayBeMissing(schema[n].schema)
    ensures Chosen(env, schema, n + 1, i, v, fields)
  {
    forall k: nat | k < |fields|
      ensures IsForOneOf(env, schema, n + 1, fields[k])
    {
      ChosenKeysAreOld(env, schema, n, i, v, fields, k);
    }
  }

  lemma NothingChosen(env: Env, schema: seq<SchemaField>, i: int, v: Json)
    ensures Chosen(env, schema, 0, i, v, [])
  {
  }

  lemma RequiredCanBeGiven(env: Env, schema: seq<SchemaField>, i: int, j: nat)
    requires ProperSchema(DictOf(schema)) && OthersCanBeGiven(env, schema, i) && j < |schema| && j != i
    ensures ProperSchema(schema[j].schema) && (MayBeMissing(schema[j].schema) || Satisfiable(env, schema[j].schema))
  {
    assert CanBeGiven(env, schema[j]);
  }

  lemma {:induction false} ChooseFields(env: Env, schema: seq<SchemaField>, n: nat, i: int, v: Json)
    returns (fields: seq<Field>)
    requires ProperSchema(DictOf(schema)) && n <= |schema| && OthersCanBeGiven(env, schema, i)
    requires 0 <= i < |schema| ==> Fits(env, schema[i].schema, v)
    ensures Chosen(env, schema, n, i, v, fields)
    decreases schema, 0, n
  {
    assert UniqueSchemaKeys(schema);
    hide Chosen, Fits, Satisfiable, MayBeMissing, ProperSchema, OthersCanBeGiven, UniqueSchemaKeys;
    fields := [];
    NothingChosen(env, schema, i, v);
    if n > 0 {
      fields := ChooseFields(env, schema, n - 1, i, v);
      if n - 1 == i {
        ChosenGrows(env, schema, n - 1, i, v, fields, v);
        fields := fields + [Field(schema[n - 1].key, v)];
      } else {
        RequiredCanBeGiven(env, schema, i, n - 1);
        if MayBeMissing(schema[n - 1].schema) {
          ChosenSkips(env, schema, n - 1, i, v, fields);
        } else {
          var w := SomeValue(env, schema[n - 1].schema);
          ChosenGrows(env, schema, n - 1, i, v, fields, w);
          fields := fields + [Field(schema[n - 1].key, w)];
        }
      }
    }
  }

  lemma ChosenFits(env: Env, schema: seq<SchemaField>, i: int, v: Json, fields: seq<Field>)
    requires UniqueSchemaKeys(schema) && Chosen(env, schema, |schema|, i, v, fields)
    ensures Fits(env, DictOf(schema), Dict(fields))
  {
    forall k | 0 <= k < |fields|
      ensures FieldConforms(env, schema, fields[k]) && ProperValue(fields[k].value)
    {
      assert IsForOneOf(env, schema, |schema|, fields[k]);
      var j: nat :| j < |schema| && IsFor(env, schema, j, fields[k]);
      LookupIsUnique(schema, j);
    }
    forall j | 0 <= j < |schema|
      ensures HasKey(fields, schema[j].key) || MayBeMissing(schema[j].schema)
    {
      if j == i {
        var k :| 0 <= k < |fields| && fields[k] == Field(schema[i].key, v);
        assert fields[k].key == schema[j].key;
      }
    }
    assert forall k :: 0 <= k < |fields| ==>
      (FieldConforms(env, schema, fields[k]) <==>
         var s := Lookup(schema, fields[k].key); s.Some? ==> Conforms(env, s.value, fields[k].value));
  }

  lemma {:induction false} SomeValue(env: Env, schema: Schema) returns (value: Json)
    requires ProperSchema(schema) && Satisfiable(env, schema)
    ensures Fits(env, schema, value)
    decreases schema, 1, 0
  {
    match schema {
      case Element(_, _) =>
        value :| Fits(env, schema, value);
      case ListOf(_) =>
        value := List([]);
      case DictOf(fields) =>
        var chosen := ChooseFields(env, fields, |fields|, -1, Null);
        ChosenFits(env, fields, -1, Null, chosen);
        value := Dict(chosen);
    }
  }

  lemma {:induction false} FittingIsSatisfiable(env: Env, schema: Schema, value: Json)
    requires ProperSchema(schema) && Fits(env, schema, value)
    ensures Satisfiable(env, schema)
    decreases schema
  {
    match schema {
      case Element(_, _) =>
      case ListOf(_) =>
      case DictOf(fields) =>
        forall i | 0 <= i < |fields|
          ensures CanBeGiven(env, fields[i])
        {
          assert MayBeMissing(fields[i].schema) || HasKey(value.fields, fields[i].key);
          if !MayBeMissing(fields[i].schema) {
            var k :| 0 <= k < |value.fields| && value.fields[k].key == fields[i].key;
            LookupIsUnique(fields, i);
            FittingIsSatisfiable(env, fields[i].schema, value.fields[k].value);
          }
        }
    }
  }

  lemma OneFieldHolds(env: Env, schema: seq<SchemaField>, i: nat, v: Json, fields: seq<Field>, passedOver: bool)
    requires ProperSchema(DictOf(schema)) && i < |schema| && Chosen(env, schema, |schema|, i, v, fields)
    requires Holds(env, schema[i].schema, v, passedOver)
    ensures Holds(env, DictOf(schema), Dict(fields), passedOver)
  {
    ChosenFits(env, schema, i, v, fields);
    var k :| 0 <= k < |fields| && fields[k] == Field(schema[i].key, v);
    LookupIsUnique(schema, i);
    var p :| p in HeldPaths(env, schema[i].schema, v, passedOver);
    FieldPathsAre(env, schema, fields, p);
    FieldPartsAre(env, PassedOver, schema, fields, p);
    assert passedOver ==> p in FieldPart(env, PassedOver, schema, fields[k]);
    assert !passedOver ==> p in FieldAccepts(env, schema, fields[k]);
  }

  lemma {:induction false} SomeHoldingValue(env: Env, schema: Schema, passedOver: bool) returns (value: Json)
    requires ProperSchema(schema) && CanHold(env, schema, passedOver)
    ensures Holds(env, schema, value, passedOver)
    decreases schema
  {
    match schema {
      case Element(_, _) =>
        value :| Fits(env, schema, value);
      case ListOf(items) =>
        var v := SomeHoldingValue(env, items[0], passedOver && IsVisited(items));
        OneItemIsHeld(env, items, v, passedOver);
        value := List([v]);
      case DictOf(fields) =>
        var i: nat :| i < |fields| && CanHold(env, fields[i].schema, passedOver) && OthersCanBeGiven(env, fields, i);
        var v := SomeHoldingValue(env, fields[i].schema, passedOver);
        var chosen := ChooseFields(env, fields, |fields|, i, v);
        OneFieldHolds(env, fields, i, v, chosen, passedOver);
        value := Dict(chosen);
    }
  }

  /** If some item of a list has held paths, one item alone has. */
  lemma {:induction false} SomeItemHolds(env: Env, schema: Schema, items: seq<Json>, passedOver: bool) returns (v: Json)
    requires (if passedOver then PartOfItems(env, PassedOver, schema, items) else ItemPaths(env, schema, items)) != {}
    ensures v in items && HeldPaths(env, schema, v, passedOver) != {}
  {
    var n := |items| - 1;
    if HeldPaths(env, schema, items[n], passedOver) != {} {
      v := items[n];
    } else {
      v := SomeItemHolds(env, schema, items[..n], passedOver);
    }
  }

  lemma {:induction false} HoldingCanHold(env: Env, schema: Schema, value: Json, passedOver: bool)
    requires ProperSchema(schema) && Holds(env, schema, value, passedOver)
    ensures CanHold(env, schema, passedOver)
    decreases schema
  {
    match schema {
      case Element(_, _) =>
      case ListOf(items) =>
        var deeper := passedOver && IsVisited(items);
        var v := SomeItemHolds(env, items[0], value.items, deeper);
        HoldingCanHold(env, items[0], v, deeper);
      case DictOf(fields) =>
        var p :| p in HeldPaths(env, schema, value, passedOver);
        FieldPathsAre(env, fields, value.fields, p);
        FieldPartsAre(env, PassedOver, fields, value.fields, p);
        var k :| 0 <= k < |value.fields|
                 && p in if passedOver then FieldPart(env, PassedOver, fields, value.fields[k])
                         else FieldAccepts(env, fields, value.fields[k]);
        var s := Lookup(fields, value.fields[k].key).value;
        var i :| 0 <= i < |fields| && fields[i] == SchemaField(value.fields[k].key, s);
        HoldingCanHold(env, fields[i].schema, value.fields[k].value, passedOver);
        FittingIsSatisfiable(env, schema, value);
    }
  }

  /** There are options that validate and hold a device in a list that is passed over exactly
      if a satisfiable device element lies in such a list and all that is required beside it
      can be given. */
  lemma ValidOptionsArePassedOverExactly(env: Env, schema: seq<SchemaField>, seen: Seen)
    requires ProperSchema(DictOf(schema))
    ensures CanHold(env, DictOf(schema), true)
            <==> exists options :: PassedOverIn(env, schema, options, seen)
  {
    if CanHold(env, DictOf(schema), true) {
      var value := SomeHoldingValue(env, DictOf(schema), true);
      ElementConforms(env, DictOf(schema), value, seen);
      assert value == Dict(value.fields);
      assert PassedOverIn(env, schema, value.fields, seen);
    }
    if options :| PassedOverIn(env, schema, options, seen) {
      ElementConforms(env, DictOf(schema), Dict(options), seen);
      HoldingCanHold(env, DictOf(schema), Dict(options), true);
    }
  }

  ghost predicate PassedOverIn(env: Env, schema: seq<SchemaField>, options: seq<Field>, seen: Seen) {
    && ProperValue(Dict(options))
    && Validate(env, schema, options, seen).0.Some?
    && OptionPaths(env, PassedOver, schema, options) != {}
  }

  /** A device in a list whose schema has two elements is validated and not extracted. */
  lemma SeveralElementsAreMissed(env: Env, p: string, second: Schema, seen: Seen)
    requires p != "" && !IsSecret(Str(p)) && env.device(env.path(p)).Some?
    ensures var schema := [SchemaField("d", ListOf([Element(DeviceKind(None), false), second]))];
            var options := [Field("d", List([Str(p)]))];
            && Validate(env, schema, options, seen).0.Some?
            && DevicePaths(env, schema, options) == {}
            && env.device(env.path(p)).value in Validate(env, schema, options, seen).1.devices
  {
    var device := Element(DeviceKind(None), false);
    var schema := [SchemaField("d", ListOf([device, second]))];
    var options := [Field("d", List([Str(p)]))];
    assert Lookup(schema, "d") == Some(schema[0].schema);
    assert Conforms(env, device, Str(p));
    assert HasKey(options, "d") by { assert options[0].key == "d"; }
    assert Conforms(env, DictOf(schema), Dict(options));
    ElementConforms(env, DictOf(schema), Dict(options), seen);
    ElementNotices(env, DictOf(schema), Dict(options), seen);
    assert [Str(p)][..0] == [] && options[..0] == [] && schema[..0] == [];
    assert ItemPaths(env, device, [Str(p)][..0]) == {};
    assert ItemPaths(env, device, [Str(p)]) == {env.path(p)};
    assert FieldPaths(env, schema, options[..0]) == {};
    assert FieldPaths(env, schema, options) == {env.path(p)};
    assert ExtractedFromFields(env, schema[..0], options) == {};
    assert ExtractedPaths(env, schema[0].schema, options[0].value) == {};
  }
}
