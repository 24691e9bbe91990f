/** The options validator as the object it is: it walks a schema, fills the validated dicts
    and lists, and collects devices and password hashes in its own fields. */
module AppOptions {
  import opened Wrappers
  import opened OptionsSpec

  /** Items after a failure are not looked at. */
  lemma {:induction false} ItemsStopAtFailure(env: Env, schema: Schema, items: seq<Json>, n: nat, seen: Seen)
    requires n <= |items| && ValidateItems(env, schema, items[..n], seen).0.None?
    ensures ValidateItems(env, schema, items, seen) == ValidateItems(env, schema, items[..n], seen)
    decreases |items|
  {
    if n == |items| {
      assert items[..n] == items;
    } else {
      assert items[..|items| - 1][..n] == items[..n];
      ItemsStopAtFailure(env, schema, items[..|items| - 1], n, seen);
    }
  }

  /** Nor are fields. */
  lemma {:induction false} FieldsStopAtFailure(
    env: Env, schema: seq<SchemaField>, fields: seq<Field>, n: nat, seen: Seen)
    requires n <= |fields| && ValidateFields(env, schema, fields[..n], seen).0.None?
    ensures ValidateFields(env, schema, fields, seen) == ValidateFields(env, schema, fields[..n], seen)
    decreases |fields|
  {
    if n == |fields| {
      assert fields[..n] == fields;
    } else {
      assert fields[..|fields| - 1][..n] == fields[..n];
      FieldsStopAtFailure(env, schema, fields[..|fields| - 1], n, seen);
    }
  }

  lemma NextItem(env: Env, schema: Schema, items: seq<Json>, i: nat, seen: Seen)
    requires i < |items|
    requires ValidateItems(env, schema, items[..i], seen).0.Some?
    ensures var (before, seen') := ValidateItems(env, schema, items[..i], seen);
            var (last, seen'') := ValidateElement(env, schema, items[i], seen');
            ValidateItems(env, schema, items[..i + 1], seen)
            == (if last.Some? then Some(before.value + [last.value]) else None, seen'')
  {
    assert items[..i + 1][..i] == items[..i] && items[..i + 1][i] == items[i];
  }

  lemma NextField(env: Env, schema: seq<SchemaField>, fields: seq<Field>, i: nat, seen: Seen)
    requires i < |fields|
    requires ValidateFields(env, schema, fields[..i], seen).0.Some?
    ensures var (before, seen') := ValidateFields(env, schema, fields[..i], seen);
            var s := Lookup(schema, fields[i].key);
            ValidateFields(env, schema, fields[..i + 1], seen)
            == if s.None? then (before, seen')
               else
                 var (last, seen'') := ValidateElement(env, s.value, fields[i].value, seen');
                 (if last.Some? then Some(before.value + [Field(fields[i].key, last.value)]) else None, seen'')
  {
    assert fields[..i + 1][..i] == fields[..i] && fields[..i + 1][i] == fields[i];
  }

  lemma NextExtracted(env: Env, schema: seq<SchemaField>, fields: seq<Field>, i: nat)
    requires i < |schema|
    ensures ExtractedFromFields(env, schema[..i + 1], fields)
            == ExtractedFromFields(env, schema[..i], fields) + FieldExtracts(env, schema[i], fields)
  {
    assert schema[..i + 1][..i] == schema[..i] && schema[..i + 1][i] == schema[i];
  }

  lemma NextExtractedItem(env: Env, schema: Schema, items: seq<Json>, i: nat)
    requires i < |items|
    ensures ExtractedFromItems(env, schema, items[..i + 1])
            == ExtractedFromItems(env, schema, items[..i]) + ExtractedPaths(env, schema, items[i])
  {
    assert items[..i + 1][..i] == items[..i] && items[..i + 1][i] == items[i];
  }

  /** A set of paths that is filled by several calls. */
  class PathSet {
    var paths: set<Path>

    constructor ()
      ensures paths == {}
    {
      paths := {};
    }

    method Add(p: Path)
      modifies this
      ensures paths == old(paths) + {p}
    {
      paths := paths + {p};
    }
  }

  class AppOptions {
    var env: Env
    var rawSchema: seq<SchemaField>
    var devices: set<Device>
    var pwned: set<string>

    constructor (env: Env, rawSchema: seq<SchemaField>)
      ensures this.env == env && this.rawSchema == rawSchema
      ensures View() == Seen({}, {})
    {
      this.env := env;
      this.rawSchema := rawSchema;
      devices, pwned := {}, {};
    }

    ghost function View(): Seen
      reads this
    {
      Seen(devices, pwned)
    }

    /** Validates a dict of options; `None` stands for the exception raised. */
    method Call(struct: seq<Field>) returns (r: Option<Json>)
      modifies this`devices, this`pwned
      ensures (r, View()) == Validate(env, rawSchema, struct, old(View()))
    {
      var options := [];
      for i := 0 to |struct|
        invariant ValidateFields(env, rawSchema, struct[..i], old(View())) == (Some(options), View())
      {
        NextField(env, rawSchema, struct, i, old(View()));
        var typ := Lookup(rawSchema, struct[i].key);
        if typ.None? {
          continue;
        }
        var out := ValidateElement(typ.value, struct[i].value);
        if out.None? {
          FieldsStopAtFailure(env, rawSchema, struct, i + 1, old(View()));
          return None;
        }
        options := options + [Field(struct[i].key, out.value)];
      }
      assert struct[..|struct|] == struct;
      var complete := CheckMissingOptions(rawSchema, options);
      r := if complete then Some(Dict(options)) else None;
    }

    method ValidateElement(typ: Schema, value: Json) returns (r: Option<Json>)
      modifies this`devices, this`pwned
      ensures (r, View()) == OptionsSpec.ValidateElement(env, typ, value, old(View()))
      decreases typ, 1, 0
    {
      match typ {
        case ListOf(items) =>
          if items == [] {
            return None;
          }
          r := NestedValidateList(items[0], value);
        case DictOf(fields) =>
          r := NestedValidateDict(fields, value);
        case Element(kind, _) =>
          r := SingleValidate(kind, value);
      }
    }

    method SingleValidate(typ: Kind, value: Json) returns (r: Option<Json>)
      modifies this`devices, this`pwned
      ensures (r, View()) == OptionsSpec.SingleValidate(env, typ, value, old(View()))
    {
      if value == Null {
        return None;
      }
      var v := value;
      if IsSecret(v) {
        var secret := v.s[|SECRET|..];
        if secret !in env.secrets || env.secrets[secret] == Null {
          return None;
        }
        v := env.secrets[secret];
      }
      match typ {
        case Unknown(_) =>
          return None;
        case PasswordKind(_) =>
          if Truthy(v) {
            pwned := pwned + {env.sha1(Show(env, v))};
          }
          r := Accept(env, typ, v);
        case DeviceKind(filter) =>
          if !v.Str? {
            return None;
          }
          var device := env.device(env.path(v.s));
          if device.None? {
            return None;
          }
          if filter.Some? && !env.passes(filter.value, device.value) {
            return None;
          }
          devices := devices + {device.value};
          r := Some(v);
        case _ =>
          r := Accept(env, typ, v);
      }
    }

    method NestedValidateList(typ: Schema, value: Json) returns (r: Option<Json>)
      modifies this`devices, this`pwned
      ensures !value.List? ==> r == None && View() == old(View())
      ensures value.List? ==>
                var (out, seen) := ValidateItems(env, typ, value.items, old(View()));
                View() == seen && r == if out.Some? then Some(List(out.value)) else None
      decreases typ, 2, 0
    {
      if !value.List? {
        return None;
      }
      var options := [];
      for i := 0 to |value.items|
        invariant ValidateItems(env, typ, value.items[..i], old(View())) == (Some(options), View())
      {
        NextItem(env, typ, value.items, i, old(View()));
        var out := ValidateElement(typ, value.items[i]);
        if out.None? {
          ItemsStopAtFailure(env, typ, value.items, i + 1, old(View()));
          return None;
        }
        options := options + [out.value];
      }
      assert value.items[..|value.items|] == value.items;
      r := Some(List(options));
    }

    method NestedValidateDict(typ: seq<SchemaField>, value: Json) returns (r: Option<Json>)
      modifies this`devices, this`pwned
      ensures (r, View()) == OptionsSpec.ValidateElement(env, DictOf(typ), value, old(View()))
      decreases typ, 0, 0
    {
      if !value.Dict? {
        return None;
      }
      var options := [];
      for i := 0 to |value.fields|
        invariant ValidateFields(env, typ, value.fields[..i], old(View())) == (Some(options), View())
      {
        NextField(env, typ, value.fields, i, old(View()));
        var s := Lookup(typ, value.fields[i].key);
        if s.None? {
          continue;
        }
        var out := ValidateElement(s.value, value.fields[i].value);
        if out.None? {
          FieldsStopAtFailure(env, typ, value.fields, i + 1, old(View()));
          return None;
        }
        options := options + [Field(value.fields[i].key, out.value)];
      }
      assert value.fields[..|value.fields|] == value.fields;
      var complete := CheckMissingOptions(typ, options);
      r := if complete then Some(Dict(options)) else None;
    }

    /** Every schema key is among the options, or its schema says that it may be missing. */
    method CheckMissingOptions(origin: seq<SchemaField>, present: seq<Field>) returns (complete: bool)
      ensures complete <==> NothingMissing(origin, present)
    {
      for i := 0 to |origin|
        invariant forall j :: 0 <= j < i ==> HasKey(present, origin[j].key) || MayBeMissing(origin[j].schema)
      {
        if HasKey(present, origin[i].key) {
          continue;
        }
        var missing := origin[i].schema;
        if missing.ListOf? && missing.items != [] {
          missing := missing.items[0];
        }
        if missing.Element? && missing.optional {
          continue;
        }
        return false;
      }
      complete := true;
    }

    method ExtractDevicePaths(options: seq<Field>) returns (paths: set<Path>)
      ensures paths == DevicePaths(env, rawSchema, options)
    {
      var found := new PathSet();
      CollectDevicePaths(rawSchema, options, found);
      paths := found.paths;
    }

    /** Adds what it finds to the caller's set. */
    method CollectDevicePaths(schema: seq<SchemaField>, options: seq<Field>, paths: PathSet)
      modifies paths
      ensures paths.paths == old(paths.paths) + ExtractedFromFields(env, schema, options)
      decreases schema, 0, 0
    {
      for i := 0 to |schema|
        invariant paths.paths == old(paths.paths) + ExtractedFromFields(env, schema[..i], options)
      {
        NextExtracted(env, schema, options, i);
        var value := Value(options, schema[i].key);
        if value.None? {
          continue;
        }
        match schema[i].schema {
          case ListOf(items) =>
            if |items| == 1 {
              CollectFromList(items[0], value.value, paths);
            }
          case DictOf(fields) =>
            if value.value.Dict? {
              CollectDevicePaths(fields, value.value.fields, paths);
            }
          case Element(kind, _) =>
            if LooksLikeDevice(kind) && Truthy(value.value) {
              paths.Add(env.path(Show(env, value.value)));
            }
        }
      }
      assert schema[..|schema|] == schema;
    }

    method CollectFromList(inner: Schema, value: Json, paths: PathSet)
      modifies paths
      ensures paths.paths == old(paths.paths)
                             + if inner.ListOf? || !value.List? then {} else ExtractedFromItems(env, inner, value.items)
      decreases inner, 2, 0
    {
      if !value.List? || inner.ListOf? {
        return;
      }
      for i := 0 to |value.items|
        invariant paths.paths == old(paths.paths) + ExtractedFromItems(env, inner, value.items[..i])
      {
        NextExtractedItem(env, inner, value.items, i);
        var item := value.items[i];
        match inner {
          case Element(kind, _) =>
            if LooksLikeDevice(kind) && Truthy(item) {
              paths.Add(env.path(Show(env, item)));
            }
          case DictOf(fields) =>
            if item.Dict? {
              CollectDevicePaths(fields, item.fields, paths);
            }
        }
      }
      assert value.items[..|value.items|] == value.items;
    }
  }
}
