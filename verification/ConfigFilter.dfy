/** Filtering a bot's configuration down to what its schema declares, before it is validated. */
module ConfigFilter {
  import opened Results

  /** A JSON value; `Other` stands for strings, numbers, booleans, null and arrays. */
  datatype Json = Other(text: string) | Obj(fields: map<string, Json>)

  /** `isObject`: type is "object". `closed`: additionalProperties is false. A schema without `properties` is
      Bare. */
  datatype Schema =
    | Bare(isObject: bool, closed: bool)
    | Declaring(isObject: bool, closed: bool, properties: map<string, Schema>)

  /** The filter goes into values of such a schema. */
  predicate Closed(s: Schema) {
    s.isObject && s.Declaring? && s.closed
  }

  /** The value with all undeclared keys gone, here and below. */
  function Filtered(j: Json, s: Schema): Json
    decreases s, 0
  {
    if j.Other? then j
    else if s.Bare? then Obj(map[])
    else
      Obj(map k | k in j.fields && k in s.properties :: FilteredValue(j.fields[k], s.properties[k]))
  }

  /** The part of the result for some of the declared keys. */
  ghost function FilteredOn(fields: map<string, Json>, declared: map<string, Schema>, keys: set<string>)
    : map<string, Json>
  {
    map k | k in fields && k in declared && k in keys :: FilteredValue(fields[k], declared[k])
  }

  lemma FilteredOnOneMore(fields: map<string, Json>, declared: map<string, Schema>, keys: set<string>, key: string)
    requires key in declared && key !in keys
    ensures FilteredOn(fields, declared, keys + {key}) ==
      if key in fields then FilteredOn(fields, declared, keys)[key := FilteredValue(fields[key], declared[key])]
      else FilteredOn(fields, declared, keys)
  {
  }

  function FilteredValue(j: Json, s: Schema): Json
    decreases s, 1
  {
    if Closed(s) then Filtered(j, s) else j
  }

  /** No undeclared key here or at any level that closed schemas reach. */
  ghost predicate Clean(j: Json, s: Schema)
    decreases s
  {
    j.Obj? ==> forall k :: k in j.fields ==>
      s.Declaring? && k in s.properties && (Closed(s.properties[k]) ==> Clean(j.fields[k], s.properties[k]))
  }

  method FilterObjectProperties(obj: Json, schema: Schema) returns (r: Json)
    ensures r == Filtered(obj, schema)
    decreases schema
  {
    if obj.Other? {
      return obj;
    }
    var filtered: map<string, Json> := map[];
    var declared := if schema.Bare? then map[] else schema.properties;
    var keys := declared.Keys;
    while keys != {}
      invariant keys <= declared.Keys
      invariant filtered == FilteredOn(obj.fields, declared, declared.Keys - keys)
      decreases |keys|
    {
      var key :| key in keys;
      FilteredOnOneMore(obj.fields, declared, declared.Keys - keys, key);
      assert declared.Keys - (keys - {key}) == declared.Keys - keys + {key};
      keys := keys - {key};
      if key in obj.fields {
        var propertySchema := declared[key];
        var kept := obj.fields[key];
        if Closed(propertySchema) {
          kept := FilterObjectProperties(kept, propertySchema);
        }
        filtered := filtered[key := kept];
      }
    }
    r := Obj(filtered);
  }

  /** A configuration is filtered only when its schema is closed and declares properties. */
  function Prepared(config: Json, s: Schema): Json {
    if s.closed && s.Declaring? then Filtered(config, s) else config
  }

  method FilterConfigForSchema(config: Json, schema: Schema) returns (r: Json)
    ensures r == Prepared(config, schema)
  {
    if !schema.closed {
      return config;
    }
    if schema.Bare? {
      return config;
    }
    r := FilterObjectProperties(config, schema);
  }

  // ---------- what is left ----------

  lemma {:induction false} FilteredIsClean(j: Json, s: Schema)
    ensures Clean(Filtered(j, s), s)
    decreases s
  {
    if j.Other? || s.Bare? {
    } else {
      forall k | k in j.fields && k in s.properties && Closed(s.properties[k])
        ensures Clean(Filtered(j.fields[k], s.properties[k]), s.properties[k])
      {
        FilteredIsClean(j.fields[k], s.properties[k]);
      }
    }
  }

  /** The filter leaves exactly the configurations without undeclared keys as they are. */
  lemma {:induction false} UnchangedExactlyWhen(j: Json, s: Schema)
    ensures Filtered(j, s) == j <==> Clean(j, s)
    decreases s
  {
    if j.Obj? {
      if s.Declaring? {
        forall k | k in j.fields && k in s.properties
          ensures Filtered(j.fields[k], s.properties[k]) == j.fields[k] <==> Clean(j.fields[k], s.properties[k])
        {
          UnchangedExactlyWhen(j.fields[k], s.properties[k]);
        }
      }
      assert Filtered(j, s) == j <==> Filtered(j, s).fields == j.fields;
      if Filtered(j, s) == j {
        assert forall k :: k in j.fields ==> k in Filtered(j, s).fields;
      }
    }
  }

  lemma FilteredTwice(j: Json, s: Schema)
    ensures Filtered(Filtered(j, s), s) == Filtered(j, s)
  {
    FilteredIsClean(j, s);
    UnchangedExactlyWhen(Filtered(j, s), s);
  }

  /** A configuration whose schema is open, or declares no properties, is not touched; from any other object exactly the
      undeclared keys are taken out. */
  lemma PreparedKeeps(config: Json, s: Schema, key: string)
    ensures !s.closed || s.Bare? ==> Prepared(config, s) == config
    ensures s.closed && s.Declaring? && config.Obj? ==>
      Prepared(config, s).Obj? && (key in Prepared(config, s).fields <==> key in config.fields && key in s.properties)
    ensures config.Other? ==> Prepared(config, s) == config
  {
  }

  /** Only values of closed object schemas are filtered further down. */
  lemma OpenValuesStay(config: Json, s: Schema, key: string)
    requires s.closed && s.Declaring? && config.Obj? && key in config.fields && key in s.properties
    requires var p := s.properties[key]; !p.isObject || !p.closed || p.Bare?
    ensures Prepared(config, s).Obj? && key in Prepared(config, s).fields
    ensures Prepared(config, s).fields[key] == config.fields[key]
  {
    assert Prepared(config, s) == Filtered(config, s);
    assert Filtered(config, s).fields[key] == FilteredValue(config.fields[key], s.properties[key]);
  }

  /** The same for the entry point, open schemas included. */
  lemma PreparedTwice(config: Json, s: Schema)
    ensures Prepared(Prepared(config, s), s) == Prepared(config, s)
    ensures s.closed && s.Declaring? ==> Clean(Prepared(config, s), s)
    ensures Clean(config, s) ==> Prepared(config, s) == config
  {
    FilteredTwice(config, s);
    FilteredIsClean(config, s);
    UnchangedExactlyWhen(config, s);
  }

  // ---------- nothing declared is lost ----------

  /** The value at the end of a path of keys. */
  function Lookup(j: Json, path: seq<string>): Option<Json>
    decreases path
  {
    if path == [] then Some(j)
    else if j.Obj? && path[0] in j.fields then Lookup(j.fields[path[0]], path[1..])
    else None
  }

  /** The schema declares every key of the path, as far as closed schemas reach. */
  predicate Allowed(s: Schema, path: seq<string>)
    decreases path
  {
    path == [] ||
    (s.Declaring? && path[0] in s.properties &&
     (Closed(s.properties[path[0]]) ==> Allowed(s.properties[path[0]], path[1..])))
  }

  /** The filtered value has exactly the allowed paths of the original, and the same values at their ends
      (an object in place of an object: what it holds is said by the longer paths). */
  lemma {:induction false} KeepsAllowedPathsExactly(j: Json, s: Schema, path: seq<string>)
    ensures Lookup(Filtered(j, s), path).Some? <==> Allowed(s, path) && Lookup(j, path).Some?
    ensures Lookup(Filtered(j, s), path).Some? ==>
      var before, after := Lookup(j, path).value, Lookup(Filtered(j, s), path).value;
      if before.Obj? then after.Obj? else after == before
    decreases path
  {
    if path != [] && j.Obj? && s.Declaring? && path[0] in j.fields && path[0] in s.properties {
      var k := path[0];
      if Closed(s.properties[k]) {
        KeepsAllowedPathsExactly(j.fields[k], s.properties[k], path[1..]);
      }
    }
  }
}
