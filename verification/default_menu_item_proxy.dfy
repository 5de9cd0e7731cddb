/** The base proxy of the dbusmenu server (DBus revision): the static caches
    built from the schema's attributes, default-value lookup, the sparse-encoding
    test `IsDefaultValue`, and the resolution of property names in `GetValue`. */
module DefaultMenuItemProxy {
  import opened Wrappers
  import opened MenuItemSchema

  /** Setting `m[key(p)] := val(p)` for each property of `ps` in turn, as a
      dictionary's indexer does. */
  function Index<K, V>(m: map<K, V>, ps: seq<Prop>, key: Prop -> K, val: Prop -> V): map<K, V> {
    if ps == [] then m
    else Index(m, ps[..|ps| - 1], key, val)[key(ps[|ps| - 1]) := val(ps[|ps| - 1])]
  }

  /** The keys of the index are the old keys and the keys of `ps`. */
  lemma {:induction false} IndexKeys<K, V>(m: map<K, V>, ps: seq<Prop>, key: Prop -> K, val: Prop -> V, k: K)
    ensures k in Index(m, ps, key, val) <==> k in m || exists p :: p in ps && key(p) == k
  {
    if ps != [] {
      var init, last := ps[..|ps| - 1], ps[|ps| - 1];
      IndexKeys(m, init, key, val, k);
      if exists p :: p in ps && key(p) == k {
        var p :| p in ps && key(p) == k;
        assert p in init || p == last by {
          assert ps == init + [last];
        }
      }
      assert forall p :: p in init ==> p in ps;
    }
  }

  /** For a key that no other property of `ps` shares, the index holds that
      property's value. */
  lemma {:induction false} IndexValue<K, V>(m: map<K, V>, ps: seq<Prop>, key: Prop -> K, val: Prop -> V, p: Prop)
    requires p in ps
    requires forall q :: q in ps && key(q) == key(p) ==> q == p
    ensures key(p) in Index(m, ps, key, val) && Index(m, ps, key, val)[key(p)] == val(p)
  {
    var init, last := ps[..|ps| - 1], ps[|ps| - 1];
    assert ps == init + [last];
    if p != last {
      assert p in init;
      assert forall q :: q in init ==> q in ps;
      IndexValue(m, init, key, val, p);
    }
  }

  /** mDisplayNameCache: display name to C# property name. */
  function DisplayNameCache(): map<string, string> {
    Index(map[], AllProps, DisplayName, ClrName)
  }

  /** mDefaultValueCache: C# property name to default-attribute value. */
  function DefaultValueCache(): map<string, Value> {
    Index(map[], AllProps, ClrName, DefaultValue)
  }

  /** The cache has one key per property, its display name, mapped to the
      property's C# name. */
  lemma DisplayNameCacheContents()
    ensures forall k :: k in DisplayNameCache() <==> exists p: Prop :: DisplayName(p) == k
    ensures forall p: Prop :: DisplayName(p) in DisplayNameCache() && DisplayNameCache()[DisplayName(p)] == ClrName(p)
  {
    forall p: Prop
      ensures DisplayName(p) in DisplayNameCache() && DisplayNameCache()[DisplayName(p)] == ClrName(p)
    {
      DisplayNameEntry(p);
    }
    forall k ensures k in DisplayNameCache() <==> exists p: Prop :: DisplayName(p) == k {
      DisplayNameKey(k);
    }
  }

  /** A property's display name maps to its C# name. */
  lemma DisplayNameEntry(p: Prop)
    ensures DisplayName(p) in DisplayNameCache() && DisplayNameCache()[DisplayName(p)] == ClrName(p)
  {
    AllPropsCover(p);
    forall q | q in AllProps && DisplayName(q) == DisplayName(p) ensures q == p { NamesInjective(p, q); }
    IndexValue(map[], AllProps, DisplayName, ClrName, p);
  }

  /** The keys are exactly the display names. */
  lemma DisplayNameKey(k: string)
    ensures k in DisplayNameCache() <==> exists p: Prop :: DisplayName(p) == k
  {
    IndexKeys(map[], AllProps, DisplayName, ClrName, k);
    if exists p: Prop :: DisplayName(p) == k {
      var p: Prop :| DisplayName(p) == k;
      AllPropsCover(p);
    }
  }

  /** The cache has one key per property, its C# name, mapped to the
      property's default. */
  lemma DefaultValueCacheContents()
    ensures forall k :: k in DefaultValueCache() <==> exists p: Prop :: ClrName(p) == k
    ensures forall p: Prop :: ClrName(p) in DefaultValueCache() && DefaultValueCache()[ClrName(p)] == DefaultValue(p)
  {
    forall p: Prop
      ensures ClrName(p) in DefaultValueCache() && DefaultValueCache()[ClrName(p)] == DefaultValue(p)
    {
      DefaultValueEntry(p);
    }
    forall k ensures k in DefaultValueCache() <==> exists p: Prop :: ClrName(p) == k {
      DefaultValueKey(k);
    }
  }

  /** A property's C# name maps to its default. */
  lemma DefaultValueEntry(p: Prop)
    ensures ClrName(p) in DefaultValueCache() && DefaultValueCache()[ClrName(p)] == DefaultValue(p)
  {
    AllPropsCover(p);
    forall q | q in AllProps && ClrName(q) == ClrName(p) ensures q == p { NamesInjective(p, q); }
    IndexValue(map[], AllProps, ClrName, DefaultValue, p);
  }

  /** The keys are exactly the C# names. */
  lemma DefaultValueKey(k: string)
    ensures k in DefaultValueCache() <==> exists p: Prop :: ClrName(p) == k
  {
    IndexKeys(map[], AllProps, ClrName, DefaultValue, k);
    if exists p: Prop :: ClrName(p) == k {
      var p: Prop :| ClrName(p) == k;
      AllPropsCover(p);
    }
  }

  /** UpdateCaches: one dictionary store per attribute of each schema property,
      into the two static caches. */
  method UpdateCaches(displayNames: map<string, string>, defaults: map<string, Value>)
    returns (displayNames': map<string, string>, defaults': map<string, Value>)
    ensures displayNames' == Index(displayNames, AllProps, DisplayName, ClrName)
    ensures defaults' == Index(defaults, AllProps, ClrName, DefaultValue)
  {
    displayNames', defaults' := displayNames, defaults;
    var i := 0;
    while i < |AllProps|
      invariant 0 <= i <= |AllProps|
      invariant displayNames' == Index(displayNames, AllProps[..i], DisplayName, ClrName)
      invariant defaults' == Index(defaults, AllProps[..i], ClrName, DefaultValue)
    {
      var p := AllProps[i];
      assert AllProps[..i + 1][..i] == AllProps[..i];
      displayNames' := displayNames'[DisplayName(p) := ClrName(p)];
      defaults' := defaults'[ClrName(p) := DefaultValue(p)];
      i := i + 1;
    }
    assert AllProps[..i] == AllProps;
  }

  /** The static constructor: two empty caches, then UpdateCaches; the
      caches it leaves are the ones the lookups below read. */
  method StaticConstructor() returns (displayNames: map<string, string>, defaults: map<string, Value>)
    ensures displayNames == DisplayNameCache() && defaults == DefaultValueCache()
  {
    displayNames, defaults := UpdateCaches(map[], map[]);
  }

  /** Upper-casing of ASCII letters. */
  function Upper(c: char): char {
    if 'a' <= c <= 'z' then (c as int - 32) as char else c
  }

  /** Ordinal comparison ignoring the case of ASCII letters. */
  predicate EqualsIgnoreCase(a: string, b: string) {
    |a| == |b| && forall i :: 0 <= i < |a| ==> Upper(a[i]) == Upper(b[i])
  }

  /** GetDefaultValue: "shortcut" in any letter case gives an empty string[][];
      otherwise the name is looked up as a C# property name, then as a display
      name; any other name throws. */
  function GetDefaultValue(name: string): Result<Value> {
    if EqualsIgnoreCase(name, "shortcut") then Ok(StringRows([]))
    else if name in DefaultValueCache() then Ok(DefaultValueCache()[name])
    else if name in DisplayNameCache() && DisplayNameCache()[name] in DefaultValueCache() then
      Ok(DefaultValueCache()[DisplayNameCache()[name]])
    else Err(Argument)
  }

  /** The default of a property, as the base proxy's getters return it. */
  function SchemaDefault(p: Prop): (v: Value)
    ensures p != Shortcut ==> v == DefaultValue(p)
  {
    if p == Shortcut then StringRows([]) else DefaultValue(p)
  }

  /** Only the shortcut property is named "shortcut" up to letter case. */
  lemma ShortcutNames(p: Prop)
    ensures EqualsIgnoreCase(DisplayName(p), "shortcut") <==> p == Shortcut
    ensures EqualsIgnoreCase(ClrName(p), "shortcut") <==> p == Shortcut
  {
    if p == Shortcut {
      assert EqualsIgnoreCase(DisplayName(p), "shortcut");
      assert EqualsIgnoreCase(ClrName(p), "shortcut");
    } else {
      NotShortcut(DisplayName(p));
      NotShortcut(ClrName(p));
    }
  }

  /** A name that differs from "shortcut" in length or in one of its first
      two letters is not "shortcut" in any letter case. */
  lemma NotShortcut(s: string)
    requires |s| != 8 || Upper(s[0]) != 'S' || Upper(s[1]) != 'H'
    ensures !EqualsIgnoreCase(s, "shortcut")
  {
  }

  /** The display name of a property gives its default. */
  lemma GetDefaultValueOfDisplayName(p: Prop)
    ensures GetDefaultValue(DisplayName(p)) == Ok(SchemaDefault(p))
  {
    ShortcutNames(p);
    if p != Shortcut {
      DisplayNameCacheContents();
      DefaultValueCacheContents();
      if DisplayName(p) in DefaultValueCache() {
        var q :| ClrName(q) == DisplayName(p);
        DisplayNameIsNotClrName(p, q);
      }
    }
  }

  /** The C# property name of a property gives its default. */
  lemma GetDefaultValueOfClrName(p: Prop)
    ensures GetDefaultValue(ClrName(p)) == Ok(SchemaDefault(p))
  {
    ShortcutNames(p);
    DefaultValueCacheContents();
  }

  /** Only the names of the schema, and "shortcut" in any letter case, have a
      default; every other name throws. */
  lemma GetDefaultValueKnownNames(name: string)
    ensures GetDefaultValue(name).Ok? <==>
      EqualsIgnoreCase(name, "shortcut") || exists p: Prop :: name == DisplayName(p) || name == ClrName(p)
  {
    DisplayNameCacheContents();
    DefaultValueCacheContents();
    if exists p: Prop :: name == DisplayName(p) || name == ClrName(p) {
      var p: Prop :| name == DisplayName(p) || name == ClrName(p);
      if name == DisplayName(p) {
        GetDefaultValueOfDisplayName(p);
      } else {
        GetDefaultValueOfClrName(p);
      }
    }
  }

  /** The array rule of IsDefaultValue, independent of the property name: a
      one-element array whose element is itself an array is default iff that
      element is empty; any other array is default iff it is empty.  None for a
      value that is not an array. */
  function ArrayDefault(v: Value): (r: Option<bool>)
    ensures r.Some? <==> v.Bytes? || v.Strings? || v.StringRows?
  {
    match v
    case Bytes(bs) => Some(|bs| == 0)
    case Strings(ss) => Some(|ss| == 0)
    case StringRows(rows) => Some(if |rows| == 1 then |rows[0]| == 0 else |rows| == 0)
    case _ => None
  }

  /** IsDefaultValue: null arguments throw; arrays follow the array rule;
      other values are compared with GetDefaultValue(name), which throws for an
      unknown name. */
  function IsDefaultValue(name: Option<string>, value: Option<Value>): Result<bool> {
    if name.None? || value.None? then Err(ArgumentNull)
    else match ArrayDefault(value.value)
      case Some(b) => Ok(b)
      case None =>
        match GetDefaultValue(name.value)
        case Err(e) => Err(e)
        case Ok(d) => Ok(d == value.value)
  }

  /** For a property's own name, IsDefaultValue accepts exactly its schema
      default among non-array values, and judges arrays by emptiness. */
  lemma IsDefaultValueSpec(p: Prop, name: string, v: Value)
    requires name == DisplayName(p) || name == ClrName(p)
    ensures ArrayDefault(v).None? ==> IsDefaultValue(Some(name), Some(v)) == Ok(v == DefaultValue(p))
    ensures v.Bytes? ==> IsDefaultValue(Some(name), Some(v)) == Ok(v.bytes == [])
    ensures v.StringRows? ==> IsDefaultValue(Some(name), Some(v)) == Ok(v.rows == [] || v.rows == [[]])
  {
    if name == DisplayName(p) {
      GetDefaultValueOfDisplayName(p);
    } else {
      GetDefaultValueOfClrName(p);
    }
    if v.StringRows? && |v.rows| == 1 {
      assert v.rows == [v.rows[0]];
    }
  }

  /** Every value a base-proxy getter returns is judged default. */
  lemma SchemaDefaultIsDefault(p: Prop)
    ensures IsDefaultValue(Some(DisplayName(p)), Some(SchemaDefault(p))) == Ok(true)
    ensures IsDefaultValue(Some(ClrName(p)), Some(SchemaDefault(p))) == Ok(true)
  {
    GetDefaultValueOfDisplayName(p);
    GetDefaultValueOfClrName(p);
  }

  /** GetValue's name resolution: the C# property name first, then the display
      name through the cache; None stands for the "Unknown property" error. */
  function ResolveProperty(name: string): Option<Prop> {
    match PropOfClrName(name)
    case Some(p) => Some(p)
    case None =>
      if name in DisplayNameCache() then PropOfClrName(DisplayNameCache()[name]) else None
  }

  /** GetValue finds a property under its C# name and under its display
      name, and under no other name. */
  lemma ResolvePropertySpec(name: string, p: Prop)
    ensures ResolveProperty(name) == Some(p) <==> name == ClrName(p) || name == DisplayName(p)
  {
    ClrNameLookup(name, p);
    if PropOfClrName(name).Some? {
      DisplayNameIsNotClrName(p, PropOfClrName(name).value);
    } else if name in DisplayNameCache() {
      DisplayNameKey(name);
      var q :| DisplayName(q) == name;
      DisplayNameEntry(q);
      ClrNameLookup(ClrName(q), q);
      NamesInjective(p, q);
    } else {
      DisplayNameEntry(p);
    }
  }

  /** GetAllDisplayNames: the keys of the display-name cache, in declaration
      order. */
  function GetAllDisplayNames(): (names: seq<string>)
    ensures |names| == |AllProps|
    ensures forall i :: 0 <= i < |names| ==> names[i] == DisplayName(AllProps[i])
  {
    seq(|AllProps|, i requires 0 <= i < |AllProps| => DisplayName(AllProps[i]))
  }

  /** The names returned are the keys of the display-name cache, each once. */
  lemma AllDisplayNamesAreTheKeys()
    ensures forall k :: k in GetAllDisplayNames() <==> k in DisplayNameCache()
    ensures forall i, j :: 0 <= i < j < |GetAllDisplayNames()| ==> GetAllDisplayNames()[i] != GetAllDisplayNames()[j]
  {
    DisplayNameCacheContents();
    var names := GetAllDisplayNames();
    forall k | k in DisplayNameCache() ensures k in names {
      var p :| DisplayName(p) == k;
      AllPropsCover(p);
      var i :| 0 <= i < |AllProps| && AllProps[i] == p;
      assert names[i] == k;
    }
    AllPropsDistinct();
    forall i, j | 0 <= i < j < |names| ensures names[i] != names[j] {
      NamesInjective(AllProps[i], AllProps[j]);
    }
  }
}
