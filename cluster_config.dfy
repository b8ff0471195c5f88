/** `ScyllaConfig`, the configuration value tree: its conversion to and from
    YAML values, its flat `key.sub:value` rendering, and the two accessors
    that reach into a list. Floating-point values are not part of the model. */
module ClusterConfig {
  import opened Wrappers
  import opened Text
  import Yaml

  type i64 = Yaml.i64

  datatype ScyllaConfig =
    | Null
    | Bool(b: bool)
    | Int(i: i64)
    | String(s: string)
    | List(items: seq<ScyllaConfig>)
    | Map(entries: map<string, ScyllaConfig>)

  /** The keys of a map in ascending order, the order `to_flat_string` sorts
      them into. */
  function Keys(m: map<string, ScyllaConfig>): (keys: seq<string>)
    ensures |keys| == |m|
    ensures forall k :: k in keys <==> k in m
    ensures StrictlySorted(keys)
  {
    SortedSet(m.Keys)
  }

  /* ---------------------------------------------------------------------- */
  /* to_yaml and from_yaml                                                   */
  /* ---------------------------------------------------------------------- */

  /** `to_yaml`: each variant to its YAML counterpart, element by element.
      A map's entries come out in ascending key order; the source emits them
      in hash-map order, which YAML equality ignores. */
  function ToYaml(c: ScyllaConfig): (v: Yaml.Value)
    ensures c.List? ==> v.Sequence? && |v.items| == |c.items|
    ensures c.Map? ==> v.Mapping? && |v.entries| == |c.entries|
    decreases c, 1
  {
    match c
    case Null => Yaml.Null
    case Bool(b) => Yaml.Bool(b)
    case Int(i) => Yaml.Number(i)
    case String(s) => Yaml.String(s)
    case List(items) => Yaml.Sequence(ToYamlItems(c))
    case Map(_) => Yaml.Mapping(ToYamlEntries(c))
  }

  /** The `map(|item| item.to_yaml())` of a list. */
  function ToYamlItems(c: ScyllaConfig): (vs: seq<Yaml.Value>)
    requires c.List?
    ensures |vs| == |c.items|
    decreases c, 0
  {
    seq(|c.items|, k requires 0 <= k < |c.items| => ToYaml(c.items[k]))
  }

  /** A map's entries, the key as a YAML string and the value converted. */
  function ToYamlEntries(c: ScyllaConfig): (es: seq<(Yaml.Value, Yaml.Value)>)
    requires c.Map?
    ensures |es| == |c.entries|
    decreases c, 0
  {
    var keys := Keys(c.entries);
    seq(|keys|, k requires 0 <= k < |keys| => (Yaml.String(keys[k]), ToYaml(c.entries[keys[k]])))
  }

  const SEQUENCE_ERROR := "Error parsing value in sequence"
  const KEY_ERROR := "Invalid key type in mapping"
  const MAPPING_ERROR := "Error parsing value in mapping"
  const UNSUPPORTED_ERROR := "Unsupported YAML type"

  /** `from_yaml`: the inverse conversion. A sequence fails on its first
      element that fails; a mapping fails on its first entry whose key is not
      a string or whose value fails; a tagged value is not supported. */
  function FromYaml(v: Yaml.Value): (r: Result<ScyllaConfig, string>)
    decreases v, 1
  {
    match v
    case Null => Ok(Null)
    case Bool(b) => Ok(Bool(b))
    case Number(n) => Ok(Int(n))
    case String(s) => Ok(String(s))
    case Sequence(items) =>
      (match FromYamlSeq(items)
       case Ok(cs) => Ok(List(cs))
       case Err(e) => Err(e))
    case Mapping(entries) =>
      (match FromYamlMapping(entries, Converted(v), map[])
       case Ok(m) => Ok(Map(m))
       case Err(e) => Err(e))
    case Tagged(_, _) => Err(UNSUPPORTED_ERROR)
  }

  /** The conversion of each value of a mapping. */
  function Converted(v: Yaml.Value): (rs: seq<Result<ScyllaConfig, string>>)
    requires v.Mapping?
    ensures |rs| == |v.entries|
    decreases v, 0
  {
    seq(|v.entries|, k requires 0 <= k < |v.entries| => FromYaml(v.entries[k].1))
  }

  /** The `for value in seq` loop of `from_yaml`. */
  function FromYamlSeq(items: seq<Yaml.Value>): (r: Result<seq<ScyllaConfig>, string>)
    ensures r.Ok? ==> |r.value| == |items|
    ensures r.Err? ==> r.error == SEQUENCE_ERROR
    decreases items, 0
  {
    if items == [] then Ok([])
    else
      match FromYaml(items[0])
      case Err(_) => Err(SEQUENCE_ERROR)
      case Ok(c) =>
        match FromYamlSeq(items[1..])
        case Ok(cs) => Ok([c] + cs)
        case Err(e) => Err(e)
  }

  /** The `for (key, value) in map` loop of `from_yaml`, given each value's
      conversion: each entry is inserted into the map built so far, so a later
      key replaces an earlier. */
  function FromYamlMapping(entries: seq<(Yaml.Value, Yaml.Value)>, converted: seq<Result<ScyllaConfig, string>>,
                           acc: map<string, ScyllaConfig>): (r: Result<map<string, ScyllaConfig>, string>)
    requires |converted| == |entries|
    ensures r.Err? ==> r.error == KEY_ERROR || r.error == MAPPING_ERROR
    decreases |entries|
  {
    if entries == [] then Ok(acc)
    else if !entries[0].0.String? then Err(KEY_ERROR)
    else
      match converted[0]
      case Err(_) => Err(MAPPING_ERROR)
      case Ok(c) => FromYamlMapping(entries[1..], converted[1..], acc[entries[0].0.s := c])
  }

  /* ---------------------------------------------------------------------- */
  /* The round trips                                                         */
  /* ---------------------------------------------------------------------- */

  lemma {:induction false} FromYamlSeqAll(vs: seq<Yaml.Value>, cs: seq<ScyllaConfig>)
    requires |vs| == |cs|
    requires forall k :: 0 <= k < |vs| ==> FromYaml(vs[k]) == Ok(cs[k])
    ensures FromYamlSeq(vs) == Ok(cs)
    decreases |vs|
  {
    if vs != [] {
      FromYamlSeqAll(vs[1..], cs[1..]);
      assert cs == [cs[0]] + cs[1..];
    }
  }

  lemma {:induction false} FromYamlSeqOk(vs: seq<Yaml.Value>)
    requires FromYamlSeq(vs).Ok?
    ensures forall k :: 0 <= k < |vs| ==> FromYaml(vs[k]) == Ok(FromYamlSeq(vs).value[k])
    decreases |vs|
  {
    if vs != [] {
      FromYamlSeqOk(vs[1..]);
      assert forall k :: 0 < k < |vs| ==> vs[k] == vs[1..][k - 1];
    }
  }

  /** Inserting entries whose keys are `keys` and whose values are those of
      `m` at those keys. */
  lemma {:induction false} FromYamlMappingAll(entries: seq<(Yaml.Value, Yaml.Value)>,
                                              converted: seq<Result<ScyllaConfig, string>>,
                                              acc: map<string, ScyllaConfig>, keys: seq<string>,
                                              m: map<string, ScyllaConfig>)
    requires |converted| == |entries| == |keys|
    requires forall k :: 0 <= k < |keys| ==>
               keys[k] in m && entries[k].0 == Yaml.String(keys[k]) && converted[k] == Ok(m[keys[k]])
    ensures var r := FromYamlMapping(entries, converted, acc);
      && r.Ok?
      && (forall x :: x in r.value <==> x in acc || x in keys)
      && (forall x :: x in r.value ==> r.value[x] == if x in keys then m[x] else acc[x])
    decreases |entries|
  {
    if entries != [] {
      var acc' := acc[keys[0] := m[keys[0]]];
      FromYamlMappingAll(entries[1..], converted[1..], acc', keys[1..], m);
      assert forall x :: x in keys <==> x == keys[0] || x in keys[1..];
    }
  }

  /** Every configuration survives the trip through YAML. */
  lemma {:induction false} RoundTrip(c: ScyllaConfig)
    ensures FromYaml(ToYaml(c)) == Ok(c)
    decreases c, 2
  {
    match c
    case List(items) => RoundTripItems(c);
    case Map(_) => RoundTripEntries(c);
    case _ =>
  }

  lemma {:induction false} RoundTripItems(c: ScyllaConfig)
    requires c.List?
    ensures FromYamlSeq(ToYamlItems(c)) == Ok(c.items)
    decreases c, 0
  {
    var vs := ToYamlItems(c);
    forall k | 0 <= k < |c.items| ensures FromYaml(vs[k]) == Ok(c.items[k]) {
      RoundTrip(c.items[k]);
    }
    FromYamlSeqAll(vs, c.items);
  }

  lemma {:induction false} RoundTripEntries(c: ScyllaConfig)
    requires c.Map?
    ensures FromYamlMapping(ToYamlEntries(c), Converted(Yaml.Mapping(ToYamlEntries(c))), map[]) == Ok(c.entries)
    decreases c, 1
  {
    var m := c.entries;
    var keys := Keys(m);
    var entries := ToYamlEntries(c);
    var converted := Converted(Yaml.Mapping(entries));
    ConvertedEntries(c);
    FromYamlMappingAll(entries, converted, map[], keys, m);
    var r := FromYamlMapping(entries, converted, map[]);
    SameMap(r.value, m, keys);
  }

  lemma {:induction false} ConvertedEntries(c: ScyllaConfig)
    requires c.Map?
    ensures var keys := Keys(c.entries);
      var entries := ToYamlEntries(c);
      var converted := Converted(Yaml.Mapping(entries));
      forall k :: 0 <= k < |keys| ==>
        keys[k] in c.entries && entries[k].0 == Yaml.String(keys[k]) && converted[k] == Ok(c.entries[keys[k]])
    decreases c, 0
  {
    var keys := Keys(c.entries);
    forall k | 0 <= k < |keys| ensures FromYaml(ToYaml(c.entries[keys[k]])) == Ok(c.entries[keys[k]]) {
      RoundTrip(c.entries[keys[k]]);
    }
  }

  /** Two maps with the same keys, listed in `keys`, and the same values. */
  lemma SameMap<V>(r: map<string, V>, m: map<string, V>, keys: seq<string>)
    requires forall x :: x in r <==> x in keys
    requires forall x :: x in m <==> x in keys
    requires forall x :: x in r ==> r[x] == m[x]
    ensures r == m
  {
  }

  /** The string keys of a run of mapping entries. */
  function KeyStrings(entries: seq<(Yaml.Value, Yaml.Value)>): set<string>
  {
    set k | 0 <= k < |entries| && entries[k].0.String? :: entries[k].0.s
  }

  /** What a successful mapping conversion built: every key was a string and
      every value converted; with distinct keys, each key maps to its own
      entry's value and nothing else is added to `acc`. */
  lemma {:induction false} FromYamlMappingOk(entries: seq<(Yaml.Value, Yaml.Value)>,
                                             converted: seq<Result<ScyllaConfig, string>>,
                                             acc: map<string, ScyllaConfig>)
    requires |converted| == |entries|
    requires FromYamlMapping(entries, converted, acc).Ok?
    requires Yaml.DistinctKeys(entries)
    ensures var m := FromYamlMapping(entries, converted, acc).value;
      && (forall k :: 0 <= k < |entries| ==>
            && entries[k].0.String? && converted[k].Ok?
            && entries[k].0.s in m && m[entries[k].0.s] == converted[k].value)
      && (forall x :: x in m <==> x in acc || x in KeyStrings(entries))
    decreases |entries|
  {
    if entries != [] {
      var key := entries[0].0.s;
      var acc' := acc[key := converted[0].value];
      var rest := entries[1..];
      assert Yaml.DistinctKeys(rest) by {
        forall i, j | 0 <= i < j < |rest| ensures rest[i].0 != rest[j].0 {
          assert rest[i] == entries[i + 1] && rest[j] == entries[j + 1];
        }
      }
      FromYamlMappingOk(rest, converted[1..], acc');
      FromYamlMappingKeeps(rest, converted[1..], acc', key);
      var m := FromYamlMapping(entries, converted, acc).value;
      forall k | 0 < k < |entries|
        ensures entries[k].0.String? && converted[k].Ok? && entries[k].0.s in m && m[entries[k].0.s] == converted[k].value
      {
        assert entries[k] == rest[k - 1] && converted[k] == converted[1..][k - 1];
      }
      assert KeyStrings(entries) == {key} + KeyStrings(rest) by {
        forall x | x in KeyStrings(entries) ensures x in {key} + KeyStrings(rest) {
          var k :| 0 <= k < |entries| && entries[k].0.String? && entries[k].0.s == x;
          if k > 0 {
            assert rest[k - 1] == entries[k];
          }
        }
        forall x | x in KeyStrings(rest) ensures x in KeyStrings(entries) {
          var k :| 0 <= k < |rest| && rest[k].0.String? && rest[k].0.s == x;
          assert entries[k + 1] == rest[k];
        }
      }
      assert key !in KeyStrings(rest) by {
        forall k | 0 <= k < |rest| && rest[k].0.String? ensures rest[k].0.s != key {
          assert entries[k + 1] == rest[k];
          assert entries[0].0 != entries[k + 1].0;
        }
      }
    }
  }

  /** A key that no entry carries keeps its value. */
  lemma {:induction false} FromYamlMappingKeeps(entries: seq<(Yaml.Value, Yaml.Value)>,
                                                converted: seq<Result<ScyllaConfig, string>>,
                                                acc: map<string, ScyllaConfig>, x: string)
    requires |converted| == |entries|
    requires FromYamlMapping(entries, converted, acc).Ok?
    requires x in acc && x !in KeyStrings(entries)
    ensures var m := FromYamlMapping(entries, converted, acc).value; x in m && m[x] == acc[x]
    decreases |entries|
  {
    if entries != [] {
      var rest := entries[1..];
      assert x != entries[0].0.s;
      assert x !in KeyStrings(rest) by {
        forall k | 0 <= k < |rest| && rest[k].0.String? ensures rest[k].0.s != x {
          assert entries[k + 1] == rest[k];
        }
      }
      FromYamlMappingKeeps(rest, converted[1..], acc[entries[0].0.s := converted[0].value], x);
    }
  }

  /** Distinct string keys are as many as the entries. */
  lemma {:induction false} KeyStringsSize(entries: seq<(Yaml.Value, Yaml.Value)>)
    requires Yaml.DistinctKeys(entries)
    requires forall k :: 0 <= k < |entries| ==> entries[k].0.String?
    ensures |KeyStrings(entries)| == |entries|
    decreases |entries|
  {
    if entries != [] {
      var rest := entries[1..];
      assert Yaml.DistinctKeys(rest) by {
        forall i, j | 0 <= i < j < |rest| ensures rest[i].0 != rest[j].0 {
          assert rest[i] == entries[i + 1] && rest[j] == entries[j + 1];
        }
      }
      KeyStringsSize(rest);
      var key := entries[0].0.s;
      assert KeyStrings(entries) == {key} + KeyStrings(rest) by {
        forall x | x in KeyStrings(entries) ensures x in {key} + KeyStrings(rest) {
          var k :| 0 <= k < |entries| && entries[k].0.String? && entries[k].0.s == x;
          if k > 0 {
            assert rest[k - 1] == entries[k];
          }
        }
        forall x | x in KeyStrings(rest) ensures x in KeyStrings(entries) {
          var k :| 0 <= k < |rest| && rest[k].0.String? && rest[k].0.s == x;
          assert entries[k + 1] == rest[k];
        }
      }
      assert key !in KeyStrings(rest) by {
        forall k | 0 <= k < |rest| ensures rest[k].0.s != key {
          assert entries[k + 1] == rest[k];
          assert entries[0].0 != entries[k + 1].0;
        }
      }
    }
  }

  /** The converse trip: a well-formed YAML value that converts comes back
      equal, as serde_yaml compares values, from the configuration it
      converted to. */
  lemma {:induction false} FromYamlSame(v: Yaml.Value)
    requires Yaml.WellFormed(v) && FromYaml(v).Ok?
    ensures Yaml.Same(v, ToYaml(FromYaml(v).value))
    decreases v, 2
  {
    match v
    case Sequence(_) => SameItems(v);
    case Mapping(_) => SameEntries(v);
    case _ =>
  }

  lemma {:induction false} SameItems(v: Yaml.Value)
    requires v.Sequence? && Yaml.WellFormed(v) && FromYaml(v).Ok?
    ensures Yaml.Same(v, ToYaml(FromYaml(v).value))
    decreases v, 1
  {
    var cs := FromYamlSeq(v.items).value;
    FromYamlSeqOk(v.items);
    var ys := ToYamlItems(List(cs));
    forall k | 0 <= k < |v.items| ensures Yaml.Same(v.items[k], ys[k]) {
      FromYamlSame(v.items[k]);
    }
  }

  lemma {:induction false} SameEntries(v: Yaml.Value)
    requires v.Mapping? && Yaml.WellFormed(v) && FromYaml(v).Ok?
    ensures Yaml.Same(v, ToYaml(FromYaml(v).value))
    decreases v, 1
  {
    var m := FromYamlMapping(v.entries, Converted(v), map[]).value;
    MappingConverted(v);
    var ys := ToYamlEntries(Map(m));
    forall k | 0 <= k < |v.entries| ensures Yaml.HasEntry(ys, v.entries[k].0, v.entries[k].1) {
      EntryFound(v, k);
    }
    assert FromYaml(v) == Ok(Map(m));
    ToYamlOfMap(m);
    Yaml.SameMapping(v.entries, ys);
  }

  /** A converted mapping has one string key per entry, bound to that entry's
      converted value. */
  lemma MappingConverted(v: Yaml.Value)
    requires v.Mapping? && Yaml.WellFormed(v) && FromYaml(v).Ok?
    ensures var m := FromYamlMapping(v.entries, Converted(v), map[]).value;
      && |m| == |v.entries|
      && forall k :: 0 <= k < |v.entries| ==>
           && v.entries[k].0.String? && v.entries[k].0.s in m
           && FromYaml(v.entries[k].1) == Ok(m[v.entries[k].0.s])
  {
    var entries := v.entries;
    var m := FromYamlMapping(entries, Converted(v), map[]).value;
    FromYamlMappingOk(entries, Converted(v), map[]);
    KeyStringsSize(entries);
    assert m.Keys == KeyStrings(entries);
  }

  lemma {:induction false} EntryFound(v: Yaml.Value, k: nat)
    requires v.Mapping? && Yaml.WellFormed(v) && FromYaml(v).Ok?
    requires k < |v.entries|
    ensures var m := FromYamlMapping(v.entries, Converted(v), map[]).value;
      Yaml.HasEntry(ToYamlEntries(Map(m)), v.entries[k].0, v.entries[k].1)
    decreases v, 0
  {
    var m := FromYamlMapping(v.entries, Converted(v), map[]).value;
    MappingConverted(v);
    var s := v.entries[k].0.s;
    var keys := Keys(m);
    assert s in keys;
    var j :| 0 <= j < |keys| && keys[j] == s;
    var ys := ToYamlEntries(Map(m));
    assert Yaml.WellFormed(v.entries[k].1);
    FromYamlSame(v.entries[k].1);
    HasEntryAt(ys, j, v.entries[k].0, v.entries[k].1);
  }

  lemma ToYamlOfMap(m: map<string, ScyllaConfig>)
    ensures ToYaml(Map(m)) == Yaml.Mapping(ToYamlEntries(Map(m)))
  {
  }

  lemma HasEntryAt(ys: seq<(Yaml.Value, Yaml.Value)>, j: nat, key: Yaml.Value, value: Yaml.Value)
    requires j < |ys| && ys[j].0 == key && Yaml.Same(value, ys[j].1)
    ensures Yaml.HasEntry(ys, key, value)
  {
  }

  /* ---------------------------------------------------------------------- */
  /* What from_yaml accepts                                                  */
  /* ---------------------------------------------------------------------- */

  /** A value with no tag anywhere and only string keys in its mappings. */
  predicate Convertible(v: Yaml.Value)
    decreases v
  {
    match v
    case Sequence(xs) => forall k :: 0 <= k < |xs| ==> Convertible(xs[k])
    case Mapping(xs) => forall k :: 0 <= k < |xs| ==> xs[k].0.String? && Convertible(xs[k].1)
    case Tagged(_, _) => false
    case _ => true
  }

  /** `from_yaml` succeeds exactly on the convertible values: one non-string
      key or one tag at any depth fails the whole conversion. */
  lemma {:induction false} FromYamlOkIff(v: Yaml.Value)
    ensures FromYaml(v).Ok? <==> Convertible(v)
    decreases v, 2
  {
    match v
    case Sequence(items) => FromYamlSeqOkIff(v, 0);
    case Mapping(entries) => FromYamlMappingOkIff(v, 0, map[]);
    case _ =>
  }

  lemma {:induction false} FromYamlSeqOkIff(v: Yaml.Value, i: nat)
    requires v.Sequence? && i <= |v.items|
    ensures FromYamlSeq(v.items[i..]).Ok? <==> forall k :: i <= k < |v.items| ==> Convertible(v.items[k])
    decreases v, 1, |v.items| - i
  {
    if i < |v.items| {
      FromYamlOkIff(v.items[i]);
      FromYamlSeqOkIff(v, i + 1);
      assert v.items[i..][0] == v.items[i];
      assert v.items[i..][1..] == v.items[i + 1..];
    }
  }

  lemma {:induction false} FromYamlMappingOkIff(v: Yaml.Value, i: nat, acc: map<string, ScyllaConfig>)
    requires v.Mapping? && i <= |v.entries|
    ensures FromYamlMapping(v.entries[i..], Converted(v)[i..], acc).Ok? <==>
              forall k :: i <= k < |v.entries| ==> v.entries[k].0.String? && Convertible(v.entries[k].1)
    decreases v, 1, |v.entries| - i
  {
    var entries := v.entries[i..];
    var converted := Converted(v)[i..];
    if i < |v.entries| {
      assert entries[0] == v.entries[i] && converted[0] == FromYaml(v.entries[i].1);
      assert entries[1..] == v.entries[i + 1..] && converted[1..] == Converted(v)[i + 1..];
      FromYamlOkIff(v.entries[i].1);
      if v.entries[i].0.String? && converted[0].Ok? {
        FromYamlMappingOkIff(v, i + 1, acc[v.entries[i].0.s := converted[0].value]);
      }
    }
  }

  /** The example of a mapping keyed by a sequence: the key is rejected. */
  lemma NonStringKeyRejected()
    ensures FromYaml(Yaml.Mapping([(Yaml.Sequence([]), Yaml.Null)])) == Err(KEY_ERROR)
  {
    var v := Yaml.Mapping([(Yaml.Sequence([]), Yaml.Null)]);
    assert FromYamlMapping(v.entries, Converted(v), map[]) == Err(KEY_ERROR);
  }

  /** Empty structures convert to empty structures. */
  lemma ToYamlEmpty()
    ensures ToYaml(List([])) == Yaml.Sequence([])
    ensures ToYaml(Map(map[])) == Yaml.Mapping([])
  {
  }

  /* ---------------------------------------------------------------------- */
  /* The Debug text of a configuration                                       */
  /* ---------------------------------------------------------------------- */

  /** How `{:?}` writes one character inside a string literal. */
  function EscapeChar(ch: char): string
  {
    match ch
    case '\t' => "\\t"
    case '\r' => "\\r"
    case '\n' => "\\n"
    case '\\' => "\\\\"
    case '"' => "\\\""
    case '\0' => "\\0"
    case _ => [ch]
  }

  function Escape(s: string): string
  {
    if s == [] then "" else EscapeChar(s[0]) + Escape(s[1..])
  }

  /** Reading an escaped string back. */
  function Unescape(s: string): string
    decreases |s|
  {
    if s == [] then ""
    else if s[0] == '\\' && |s| >= 2 then
      [match s[1] case 't' => '\t' case 'r' => '\r' case 'n' => '\n' case '0' => '\0' case c => c] + Unescape(s[2..])
    else [s[0]] + Unescape(s[1..])
  }

  lemma UnescapeChar(ch: char, rest: string)
    ensures Unescape(EscapeChar(ch) + rest) == [ch] + Unescape(rest)
  {
    var e := EscapeChar(ch) + rest;
    if |EscapeChar(ch)| == 2 {
      assert e[2..] == rest;
    } else {
      assert e[1..] == rest;
    }
  }

  /** Escaping loses nothing. */
  lemma {:induction false} UnescapeEscape(s: string)
    ensures Unescape(Escape(s)) == s
    decreases |s|
  {
    if s != [] {
      UnescapeChar(s[0], Escape(s[1..]));
      UnescapeEscape(s[1..]);
      assert s == [s[0]] + s[1..];
    }
  }

  /** `format!("{:?}", c)`: the derived Debug text of a configuration. A
      map's entries are written in ascending key order. */
  function Debug(c: ScyllaConfig): string
    decreases c, 1
  {
    match c
    case Null => "Null"
    case Bool(b) => "Bool(" + (if b then "true" else "false") + ")"
    case Int(i) => "Int(" + IntToString(i as int) + ")"
    case String(s) => "String(\"" + Escape(s) + "\")"
    case List(_) => "List([" + Join(DebugItems(c), ", ") + "])"
    case Map(_) => "Map({" + Join(DebugEntries(c), ", ") + "})"
  }

  function DebugItems(c: ScyllaConfig): (ds: seq<string>)
    requires c.List?
    ensures |ds| == |c.items|
    decreases c, 0
  {
    seq(|c.items|, k requires 0 <= k < |c.items| => Debug(c.items[k]))
  }

  function DebugEntries(c: ScyllaConfig): (ds: seq<string>)
    requires c.Map?
    ensures |ds| == |c.entries|
    decreases c, 0
  {
    var keys := Keys(c.entries);
    seq(|keys|, k requires 0 <= k < |keys| => "\"" + Escape(keys[k]) + "\": " + Debug(c.entries[keys[k]]))
  }

  /* ---------------------------------------------------------------------- */
  /* to_flat_string                                                          */
  /* ---------------------------------------------------------------------- */

  /** The dotted key of an entry under `prefix`; at the top level the key
      alone. */
  function FullKey(prefix: string, key: string): string
  {
    if prefix == [] then key else prefix + "." + key
  }

  /** What follows the colon of a leaf entry. */
  function LeafText(c: ScyllaConfig): string
    requires !c.Map?
  {
    match c
    case String(s) => s
    case Int(i) => IntToString(i as int)
    case Bool(b) => if b then "true" else "false"
    case Null => "null"
    case List(_) => "[" + Join(DebugItems(c), ", ") + "]"
  }

  /** `flatten_map`: the map's entries in ascending key order, a nested map
      replaced by its own flattened entries under the longer prefix. */
  function FlattenMap(c: ScyllaConfig, prefix: string): seq<string>
    requires c.Map?
    decreases c, 1
  {
    FlattenKeys(c, Keys(c.entries), prefix)
  }

  function FlattenKeys(c: ScyllaConfig, keys: seq<string>, prefix: string): seq<string>
    requires c.Map? && forall k :: 0 <= k < |keys| ==> keys[k] in c.entries
    decreases c, 0, |keys|
  {
    if keys == [] then [] else FlattenEntry(c, keys[0], prefix) + FlattenKeys(c, keys[1..], prefix)
  }

  /** The output of one key of the map. */
  function FlattenEntry(c: ScyllaConfig, key: string, prefix: string): seq<string>
    requires c.Map? && key in c.entries
    decreases c, 0, 0
  {
    var value := c.entries[key];
    var fullKey := FullKey(prefix, key);
    if value.Map? then FlattenMap(value, fullKey) else [fullKey + ":" + LeafText(value)]
  }

  /** `to_flat_string`: the flattened entries of a map joined by spaces;
      anything but a map gives the empty string. */
  function ToFlatString(c: ScyllaConfig): (r: string)
    ensures !c.Map? ==> r == ""
    ensures c == Map(map[]) ==> r == ""
  {
    if c.Map? then Join(FlattenMap(c, ""), " ") else ""
  }

  /** Under a non-empty prefix, every flat entry starts with the prefix and a
      dot. */
  lemma {:induction false} FlattenPrefixed(c: ScyllaConfig, prefix: string)
    requires c.Map? && prefix != []
    ensures forall k :: 0 <= k < |FlattenMap(c, prefix)| ==> prefix + "." <= FlattenMap(c, prefix)[k]
    decreases c, 1
  {
    FlattenKeysPrefixed(c, Keys(c.entries), prefix);
  }

  lemma {:induction false} FlattenKeysPrefixed(c: ScyllaConfig, keys: seq<string>, prefix: string)
    requires c.Map? && prefix != [] && forall k :: 0 <= k < |keys| ==> keys[k] in c.entries
    ensures forall k :: 0 <= k < |FlattenKeys(c, keys, prefix)| ==> prefix + "." <= FlattenKeys(c, keys, prefix)[k]
    decreases c, 0, |keys|
  {
    if keys != [] {
      FlattenEntryPrefixed(c, keys[0], prefix);
      FlattenKeysPrefixed(c, keys[1..], prefix);
    }
  }

  lemma {:induction false} FlattenEntryPrefixed(c: ScyllaConfig, key: string, prefix: string)
    requires c.Map? && prefix != [] && key in c.entries
    ensures forall k :: 0 <= k < |FlattenEntry(c, key, prefix)| ==> prefix + "." <= FlattenEntry(c, key, prefix)[k]
    decreases c, 0, 0
  {
    var value := c.entries[key];
    var fullKey := prefix + "." + key;
    if value.Map? {
      FlattenPrefixed(value, fullKey);
      forall k | 0 <= k < |FlattenMap(value, fullKey)| ensures prefix + "." <= FlattenMap(value, fullKey)[k] {
        PrefixTrans(prefix + ".", fullKey + ".", FlattenMap(value, fullKey)[k]);
      }
    } else {
      PrefixTrans(prefix + ".", fullKey, fullKey + ":" + LeafText(value));
    }
  }

  lemma PrefixTrans(a: string, b: string, c: string)
    requires a <= b || exists t :: b == a + t
    requires b <= c || exists t :: c == b + t
    ensures a <= c
  {
  }

  /** An empty nested map contributes nothing. */
  lemma FlattenEmptyMap(prefix: string)
    ensures FlattenMap(Map(map[]), prefix) == []
  {
  }

  /** The value reached from `c` by following the keys of `path`, if there
      is one. */
  function Lookup(c: ScyllaConfig, path: seq<string>): Option<ScyllaConfig>
    decreases c
  {
    if path == [] then Some(c)
    else if c.Map? && path[0] in c.entries then Lookup(c.entries[path[0]], path[1..])
    else None
  }

  /** The dotted key of `path` under `prefix`. */
  function PathKey(prefix: string, path: seq<string>): string
    decreases |path|
  {
    if path == [] then prefix else PathKey(FullKey(prefix, path[0]), path[1..])
  }

  /** `path` leads from `c` through maps to a value that is not a map. */
  predicate IsLeafPath(c: ScyllaConfig, path: seq<string>)
  {
    path != [] && Lookup(c, path).Some? && !Lookup(c, path).value.Map?
  }

  /** The flat entry of the leaf at `path`. */
  function LeafLine(c: ScyllaConfig, prefix: string, path: seq<string>): string
    requires IsLeafPath(c, path)
  {
    PathKey(prefix, path) + ":" + LeafText(Lookup(c, path).value)
  }

  /** Every leaf of a map, however deep, has its `key.sub:value` entry in the
      flattening. */
  lemma {:induction false} FlattenComplete(c: ScyllaConfig, prefix: string, path: seq<string>)
    requires c.Map? && IsLeafPath(c, path)
    ensures LeafLine(c, prefix, path) in FlattenMap(c, prefix)
    decreases c, 1
  {
    assert path[0] in Keys(c.entries);
    FlattenEntryComplete(c, prefix, path);
    FlattenKeysContain(c, Keys(c.entries), prefix, path[0]);
  }

  lemma {:induction false} FlattenEntryComplete(c: ScyllaConfig, prefix: string, path: seq<string>)
    requires c.Map? && IsLeafPath(c, path)
    ensures path[0] in c.entries && LeafLine(c, prefix, path) in FlattenEntry(c, path[0], prefix)
    decreases c, 0
  {
    var key := path[0];
    var value := c.entries[key];
    assert Lookup(c, path) == Lookup(value, path[1..]);
    assert PathKey(prefix, path) == PathKey(FullKey(prefix, key), path[1..]);
    if value.Map? {
      assert path[1..] != [];
      FlattenComplete(value, FullKey(prefix, key), path[1..]);
    } else {
      assert path[1..] == [];
    }
  }

  /** A key's entries appear among those of every key list holding it. */
  lemma {:induction false} FlattenKeysContain(c: ScyllaConfig, keys: seq<string>, prefix: string, key: string)
    requires c.Map? && (forall k :: 0 <= k < |keys| ==> keys[k] in c.entries) && key in keys
    ensures key in c.entries
    ensures forall e :: e in FlattenEntry(c, key, prefix) ==> e in FlattenKeys(c, keys, prefix)
    decreases |keys|
  {
    if keys[0] != key {
      FlattenKeysContain(c, keys[1..], prefix, key);
    }
  }

  /** Every flat entry of a map is the entry of one of its leaves. */
  lemma {:induction false} FlattenSound(c: ScyllaConfig, prefix: string, line: string)
    requires c.Map? && line in FlattenMap(c, prefix)
    ensures exists path :: IsLeafPath(c, path) && line == LeafLine(c, prefix, path)
    decreases c, 1
  {
    FlattenKeysSound(c, Keys(c.entries), prefix, line);
  }

  lemma {:induction false} FlattenKeysSound(c: ScyllaConfig, keys: seq<string>, prefix: string, line: string)
    requires c.Map? && (forall k :: 0 <= k < |keys| ==> keys[k] in c.entries)
    requires line in FlattenKeys(c, keys, prefix)
    ensures exists path :: IsLeafPath(c, path) && line == LeafLine(c, prefix, path)
    decreases c, 0, |keys|
  {
    if line in FlattenEntry(c, keys[0], prefix) {
      FlattenEntrySound(c, keys[0], prefix, line);
    } else {
      FlattenKeysSound(c, keys[1..], prefix, line);
    }
  }

  lemma {:induction false} FlattenEntrySound(c: ScyllaConfig, key: string, prefix: string, line: string)
    requires c.Map? && key in c.entries && line in FlattenEntry(c, key, prefix)
    ensures exists path :: IsLeafPath(c, path) && line == LeafLine(c, prefix, path)
    decreases c, 0, 0
  {
    var value := c.entries[key];
    if value.Map? {
      FlattenSound(value, FullKey(prefix, key), line);
      var p :| IsLeafPath(value, p) && line == LeafLine(value, FullKey(prefix, key), p);
      var path := [key] + p;
      assert path[0] == key && path[1..] == p;
      assert Lookup(c, path) == Lookup(value, p);
      assert PathKey(prefix, path) == PathKey(FullKey(prefix, key), p);
      assert IsLeafPath(c, path) && line == LeafLine(c, prefix, path);
    } else {
      var path := [key];
      assert path[1..] == [];
      assert Lookup(c, path) == Lookup(value, []);
      assert PathKey(prefix, path) == PathKey(FullKey(prefix, key), []);
      assert IsLeafPath(c, path) && line == LeafLine(c, prefix, path);
    }
  }

  /** A map whose values are all leaves flattens to one entry per key, in
      ascending key order. */
  lemma FlattenLeaves(c: ScyllaConfig, prefix: string)
    requires c.Map? && forall k :: k in c.entries ==> !c.entries[k].Map?
    ensures var keys := Keys(c.entries);
            FlattenMap(c, prefix)
            == seq(|keys|, i requires 0 <= i < |keys| => FullKey(prefix, keys[i]) + ":" + LeafText(c.entries[keys[i]]))
  {
    FlattenKeysLeaves(c, Keys(c.entries), prefix);
  }

  lemma {:induction false} FlattenKeysLeaves(c: ScyllaConfig, keys: seq<string>, prefix: string)
    requires c.Map? && forall k :: 0 <= k < |keys| ==> keys[k] in c.entries && !c.entries[keys[k]].Map?
    ensures FlattenKeys(c, keys, prefix)
            == seq(|keys|, i requires 0 <= i < |keys| => FullKey(prefix, keys[i]) + ":" + LeafText(c.entries[keys[i]]))
    decreases |keys|
  {
    if keys != [] {
      FlattenKeysLeaves(c, keys[1..], prefix);
      var whole := seq(|keys|, i requires 0 <= i < |keys| => FullKey(prefix, keys[i]) + ":" + LeafText(c.entries[keys[i]]));
      var tail := seq(|keys| - 1, i requires 0 <= i < |keys| - 1 => FullKey(prefix, keys[1..][i]) + ":" + LeafText(c.entries[keys[1..][i]]));
      assert whole == [whole[0]] + tail;
    }
  }

  /** The flat entries of a map in key order, when its keys are `keys`. */
  lemma FlattenKeysCons(c: ScyllaConfig, keys: seq<string>, prefix: string)
    requires c.Map? && keys != [] && forall k :: 0 <= k < |keys| ==> keys[k] in c.entries
    ensures FlattenKeys(c, keys, prefix) == FlattenEntry(c, keys[0], prefix) + FlattenKeys(c, keys[1..], prefix)
  {
  }

  lemma LeafEntry(c: ScyllaConfig, key: string)
    requires c.Map? && key in c.entries && !c.entries[key].Map?
    ensures FlattenEntry(c, key, "") == [key + ":" + LeafText(c.entries[key])]
  {
  }

  /** A map of one leaf is one `key:value` entry. */
  lemma FlatSingle(key: string, value: ScyllaConfig)
    requires !value.Map?
    ensures ToFlatString(Map(map[key := value])) == key + ":" + LeafText(value)
  {
    var c := Map(map[key := value]);
    var keys := Keys(c.entries);
    assert keys == [key] by {
      assert key in keys;
    }
    FlattenKeysCons(c, keys, "");
    LeafEntry(c, key);
    assert FlattenMap(c, "") == [key + ":" + LeafText(value)];
  }

  /** The flat entries of a two-key map, the lesser key first. */
  lemma FlatPairEntries(c: ScyllaConfig, a: string, b: string)
    requires c.Map? && c.entries.Keys == {a, b}
    requires LexLe(a, b) && a != b
    ensures FlattenMap(c, "") == FlattenEntry(c, a, "") + FlattenEntry(c, b, "")
  {
    KeysPair(c.entries, a, b);
    FlattenKeysPair(c, a, b);
  }

  lemma KeysPair(m: map<string, ScyllaConfig>, a: string, b: string)
    requires m.Keys == {a, b} && LexLe(a, b) && a != b
    ensures Keys(m) == [a, b]
  {
    assert |m| == |m.Keys| == 2;
    SortedPair(Keys(m), a, b);
  }

  lemma FlattenKeysPair(c: ScyllaConfig, a: string, b: string)
    requires c.Map? && a in c.entries && b in c.entries
    ensures FlattenKeys(c, [a, b], "") == FlattenEntry(c, a, "") + FlattenEntry(c, b, "")
  {
    FlattenKeysCons(c, [a, b], "");
    assert [a, b][1..] == [b];
    FlattenKeysCons(c, [b], "");
    assert [b][1..] == [];
  }

  /** A map of two keys whose entries are one line each. */
  lemma FlatTwo(c: ScyllaConfig, a: string, b: string, ea: string, eb: string)
    requires c.Map? && c.entries.Keys == {a, b}
    requires LexLe(a, b) && a != b
    requires FlattenEntry(c, a, "") == [ea] && FlattenEntry(c, b, "") == [eb]
    ensures ToFlatString(c) == ea + " " + eb
  {
    FlatPairEntries(c, a, b);
    assert FlattenMap(c, "") == [ea, eb];
    JoinTwo(ea, eb, " ");
  }

  /** A map of two leaves: both entries, the lesser key first, joined by a
      space. */
  lemma FlatPair(c: ScyllaConfig, a: string, b: string)
    requires c.Map? && c.entries.Keys == {a, b}
    requires !c.entries[a].Map? && !c.entries[b].Map?
    requires LexLe(a, b) && a != b
    ensures ToFlatString(c) == (a + ":" + LeafText(c.entries[a])) + " " + (b + ":" + LeafText(c.entries[b]))
  {
    LeafEntry(c, a);
    LeafEntry(c, b);
    FlatTwo(c, a, b, a + ":" + LeafText(c.entries[a]), b + ":" + LeafText(c.entries[b]));
  }

  lemma JoinTwo(x: string, y: string, sep: string)
    ensures Join([x, y], sep) == x + sep + y
  {
    assert [x, y][1..] == [y];
  }

  /** A map whose lesser key holds a one-leaf map: the inner entry comes out
      under the dotted key. */
  lemma FlatNestedPair(c: ScyllaConfig, a: string, inner: string, x: ScyllaConfig, b: string)
    requires c.Map? && c.entries.Keys == {a, b}
    requires c.entries[a] == Map(map[inner := x]) && !x.Map? && !c.entries[b].Map?
    requires LexLe(a, b) && a != b && a != []
    ensures ToFlatString(c) == (a + "." + inner + ":" + LeafText(x)) + " " + (b + ":" + LeafText(c.entries[b]))
  {
    NestedLeafEntry(c, a, inner, x);
    LeafEntry(c, b);
    FlatTwo(c, a, b, a + "." + inner + ":" + LeafText(x), b + ":" + LeafText(c.entries[b]));
  }

  lemma NestedLeafEntry(c: ScyllaConfig, a: string, inner: string, x: ScyllaConfig)
    requires c.Map? && a in c.entries && c.entries[a] == Map(map[inner := x]) && !x.Map? && a != []
    ensures FlattenEntry(c, a, "") == [a + "." + inner + ":" + LeafText(x)]
  {
    var nested := Map(map[inner := x]);
    var keys := Keys(nested.entries);
    assert keys == [inner] by {
      assert inner in keys;
    }
    FlattenKeysCons(nested, keys, a);
    assert FlattenEntry(c, a, "") == FlattenMap(nested, a);
  }

  /** A string with nothing to escape is written as it is. */
  lemma {:induction false} EscapePlain(s: string)
    requires forall k :: 0 <= k < |s| ==> 'a' <= s[k] <= 'z'
    ensures Escape(s) == s
    decreases |s|
  {
    if s != [] {
      EscapePlain(s[1..]);
      assert s == [s[0]] + s[1..];
    }
  }

  /* ---------------------------------------------------------------------- */
  /* output_mut and take_output                                              */
  /* ---------------------------------------------------------------------- */

  /** The element `output_mut` refers to: a list's last element, or for a
      map the value its iteration visits last, here the value of the
      greatest key; scalars have none. */
  function OutputMut(c: ScyllaConfig): (r: Option<ScyllaConfig>)
    ensures c.List? ==> (r.Some? <==> c.items != [])
    ensures c.List? && r.Some? ==> r.value == c.items[|c.items| - 1]
    ensures c.Map? ==> (r.Some? <==> |c.entries| > 0)
    ensures c.Map? && r.Some? ==> r.value in c.entries.Values
    ensures !c.List? && !c.Map? ==> r == None
  {
    match c
    case List(items) => if items == [] then None else Some(items[|items| - 1])
    case Map(m) =>
      var keys := Keys(m);
      if keys == [] then None else Some(m[keys[|keys| - 1]])
    case _ => None
  }

  /** `take_output`: a list gives up its last element, which comes back and
      is gone from the list; a map hands back a copy of a value, the one its
      iteration visits first (here the value of the least key), and keeps
      it; a scalar gives nothing and stays as it was. */
  method TakeOutput(c: ScyllaConfig) returns (updated: ScyllaConfig, r: Option<ScyllaConfig>)
    ensures c.List? ==> updated.List? && (r.Some? <==> c.items != [])
    ensures c.List? && r.Some? ==> c.items == updated.items + [r.value]
    ensures c.List? ==> r == OutputMut(c)
    ensures c.Map? ==> (r.Some? <==> |c.entries| > 0)
    ensures c.Map? && r.Some? ==> r.value in c.entries.Values
    ensures !c.List? || r.None? ==> updated == c
    ensures !c.List? && !c.Map? ==> r == None
  {
    updated := c;
    r := None;
    match c {
      case List(items) =>
        if items != [] {
          r := Some(items[|items| - 1]);
          updated := List(items[..|items| - 1]);
        }
      case Map(m) =>
        var keys := Keys(m);
        if keys != [] {
          r := Some(m[keys[0]]);
        }
      case _ =>
    }
  }

  /* ---------------------------------------------------------------------- */
  /* The flat-string examples                                                */
  /* ---------------------------------------------------------------------- */

  lemma SmallInts()
    ensures IntToString(1) == "1" && IntToString(2) == "2" && IntToString(42) == "42"
  {
    assert NatToString(4) == "4";
  }

  lemma KeyOrder(a: string, b: string)
    requires a == "key1" && b == "key2"
    ensures LexLe(a, b) && a != b
  {
    LexLeLastChar("key", '1', '2');
    assert "key" + ['1'] == a && "key" + ['2'] == b;
  }

  lemma OuterKeyOrder(a: string, b: string)
    requires a == "outer_key1" && b == "outer_key2"
    ensures LexLe(a, b) && a != b
  {
    LexLeLastChar("outer_key", '1', '2');
    assert "outer_key" + ['1'] == a && "outer_key" + ['2'] == b;
  }

  /** `{"key1": "value1", "key2": 42}` flattens to `key1:value1 key2:42`. */
  lemma SimpleMapExample()
    ensures ToFlatString(Map(map["key1" := String("value1"), "key2" := Int(42)])) == "key1:value1 key2:42"
  {
    KeyOrder("key1", "key2");
    SmallInts();
    FlatPair(Map(map["key1" := String("value1"), "key2" := Int(42)]), "key1", "key2");
    SimpleMapText(("key1" + ":" + LeafText(String("value1"))) + " " + ("key2" + ":" + LeafText(Int(42))),
                  LeafText(String("value1")), LeafText(Int(42)));
  }

  lemma SimpleMapText(t: string, x: string, y: string)
    requires x == "value1" && y == "42"
    requires t == ("key1" + ":" + x) + " " + ("key2" + ":" + y)
    ensures t == "key1:value1 key2:42"
  {
  }

  /** `{"null_key": Null}` flattens to `null_key:null`. */
  lemma NullExample()
    ensures ToFlatString(Map(map["null_key" := Null])) == "null_key:null"
  {
    FlatSingle("null_key", Null);
    NullText("null_key" + ":" + LeafText(Null), LeafText(Null));
  }

  lemma NullText(t: string, x: string)
    requires x == "null" && t == "null_key" + ":" + x
    ensures t == "null_key:null"
  {
  }

  /** A list value is written as the Debug texts of its elements. */
  lemma ListExample()
    ensures ToFlatString(Map(map["key_with_list" := List([Int(1), Int(2), String("three")])]))
            == "key_with_list:[Int(1), Int(2), String(\"three\")]"
  {
    var list := List([Int(1), Int(2), String("three")]);
    FlatSingle("key_with_list", list);
    SmallInts();
    Lowercase("three");
    EscapePlain("three");
    var ds := DebugItems(list);
    JoinThree(ds, ", ");
    ListText("key_with_list" + ":" + LeafText(list), LeafText(list), ds[0], ds[1], ds[2],
             IntToString(1), IntToString(2), Escape("three"));
  }

  lemma Lowercase(s: string)
    requires s == "three"
    ensures forall k :: 0 <= k < |s| ==> 'a' <= s[k] <= 'z'
  {
  }

  lemma JoinThree(ds: seq<string>, sep: string)
    requires |ds| == 3
    ensures Join(ds, sep) == ds[0] + sep + ds[1] + sep + ds[2]
  {
    assert Join(ds[1..][1..], sep) == ds[2];
    assert Join(ds[1..], sep) == ds[1] + sep + ds[2];
  }

  lemma ListText(t: string, leaf: string, d0: string, d1: string, d2: string, i1: string, i2: string, e: string)
    requires i1 == "1" && i2 == "2" && e == "three"
    requires d0 == "Int(" + i1 + ")" && d1 == "Int(" + i2 + ")" && d2 == "String(\"" + e + "\")"
    requires leaf == "[" + (d0 + ", " + d1 + ", " + d2) + "]"
    requires t == "key_with_list" + ":" + leaf
    ensures t == "key_with_list:[Int(1), Int(2), String(\"three\")]"
  {
    ListItemsText(leaf, d0, d1, d2);
    ListEntryText(t, leaf);
  }

  lemma ListItemsText(leaf: string, d0: string, d1: string, d2: string)
    requires d0 == "Int(1)" && d1 == "Int(2)" && d2 == "String(\"three\")"
    requires leaf == "[" + (d0 + ", " + d1 + ", " + d2) + "]"
    ensures leaf == "[Int(1), Int(2), String(\"three\")]"
  {
  }

  lemma ListEntryText(t: string, leaf: string)
    requires leaf == "[Int(1), Int(2), String(\"three\")]"
    requires t == "key_with_list" + ":" + leaf
    ensures t == "key_with_list:[Int(1), Int(2), String(\"three\")]"
  {
  }

  /** A nested map: `{"outer_key1": {"inner_key": true}, "outer_key2": "3.14"}`
      flattens to `outer_key1.inner_key:true outer_key2:3.14`. */
  lemma NestedMapExample()
    ensures ToFlatString(Map(map["outer_key1" := Map(map["inner_key" := Bool(true)]),
                                 "outer_key2" := String("3.14")]))
            == "outer_key1.inner_key:true outer_key2:3.14"
  {
    OuterKeyOrder("outer_key1", "outer_key2");
    FlatNestedPair(Map(map["outer_key1" := Map(map["inner_key" := Bool(true)]), "outer_key2" := String("3.14")]),
                   "outer_key1", "inner_key", Bool(true), "outer_key2");
    NestedText(("outer_key1" + "." + "inner_key" + ":" + LeafText(Bool(true))) + " " + ("outer_key2" + ":" + LeafText(String("3.14"))),
               LeafText(Bool(true)), LeafText(String("3.14")));
  }

  lemma NestedText(t: string, x: string, y: string)
    requires x == "true" && y == "3.14"
    requires t == ("outer_key1" + "." + "inner_key" + ":" + x) + " " + ("outer_key2" + ":" + y)
    ensures t == "outer_key1.inner_key:true outer_key2:3.14"
  {
  }
}
