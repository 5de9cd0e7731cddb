/** The earlier base proxy (Keebuntu revision).  Its static constructor fills
    the same two caches with Dictionary.Add, which throws on a repeated key; its
    default-value lookup has no special case for `shortcut`. */
module LegacyDefaultMenuItemProxy {
  import opened Wrappers
  import opened MenuItemSchema
  import DefaultMenuItemProxy

  /** Dictionary.Add of `key(p) -> val(p)` for each property of `ps` in turn;
      fails on the first key already present. */
  function IndexAdd<K, V>(m: map<K, V>, ps: seq<Prop>, key: Prop -> K, val: Prop -> V): Result<map<K, V>> {
    if ps == [] then Ok(m)
    else
      match IndexAdd(m, ps[..|ps| - 1], key, val)
      case Err(e) => Err(e)
      case Ok(m') =>
        if key(ps[|ps| - 1]) in m' then Err(Argument)
        else Ok(m'[key(ps[|ps| - 1]) := val(ps[|ps| - 1])])
  }

  /** With keys that are new and pairwise distinct, every Add succeeds and the
      result is the same index that plain stores build. */
  lemma {:induction false} IndexAddSucceeds<K, V>(m: map<K, V>, ps: seq<Prop>, key: Prop -> K, val: Prop -> V)
    requires forall p :: p in ps ==> key(p) !in m
    requires forall i, j :: 0 <= i < j < |ps| ==> key(ps[i]) != key(ps[j])
    ensures IndexAdd(m, ps, key, val) == Ok(DefaultMenuItemProxy.Index(m, ps, key, val))
  {
    if ps != [] {
      var init, last := ps[..|ps| - 1], ps[|ps| - 1];
      assert forall p :: p in init ==> p in ps;
      IndexAddSucceeds(m, init, key, val);
      forall p | p in init ensures key(p) != key(last) {
        var i :| 0 <= i < |init| && init[i] == p;
        assert key(ps[i]) != key(ps[|ps| - 1]);
      }
      IndexMissing(m, init, key, val, key(last));
    }
  }

  /** A key neither in `m` nor the key of a property of `ps` is not in the
      index. */
  lemma {:induction false} IndexMissing<K, V>(m: map<K, V>, ps: seq<Prop>, key: Prop -> K, val: Prop -> V, k: K)
    requires k !in m
    requires forall p :: p in ps ==> key(p) != k
    ensures k !in DefaultMenuItemProxy.Index(m, ps, key, val)
  {
    if ps != [] {
      assert forall p :: p in ps[..|ps| - 1] ==> p in ps;
      IndexMissing(m, ps[..|ps| - 1], key, val, k);
    }
  }

  /** The index of a prefix one property longer stores that property's entry
      over the index of the shorter prefix. */
  lemma IndexPrefixStep<K, V>(m: map<K, V>, ps: seq<Prop>, i: nat, key: Prop -> K, val: Prop -> V)
    requires i < |ps|
    ensures DefaultMenuItemProxy.Index(m, ps[..i + 1], key, val) == DefaultMenuItemProxy.Index(m, ps[..i], key, val)[key(ps[i]) := val(ps[i])]
  {
    assert ps[..i + 1][..i] == ps[..i];
  }

  datatype Caches = Caches(displayNames: map<string, string>, defaults: map<string, Value>)

  /** One more schema property: its two keys are not yet in the caches
      built from the properties before it, and it adds one entry to each. */
  lemma AddStep(i: nat)
    requires i < |AllProps|
    ensures DisplayName(AllProps[i]) !in DefaultMenuItemProxy.Index(map[], AllProps[..i], DisplayName, ClrName)
    ensures ClrName(AllProps[i]) !in DefaultMenuItemProxy.Index(map[], AllProps[..i], ClrName, DefaultValue)
    ensures DefaultMenuItemProxy.Index(map[], AllProps[..i + 1], DisplayName, ClrName)
      == DefaultMenuItemProxy.Index(map[], AllProps[..i], DisplayName, ClrName)[DisplayName(AllProps[i]) := ClrName(AllProps[i])]
    ensures DefaultMenuItemProxy.Index(map[], AllProps[..i + 1], ClrName, DefaultValue)
      == DefaultMenuItemProxy.Index(map[], AllProps[..i], ClrName, DefaultValue)[ClrName(AllProps[i]) := DefaultValue(AllProps[i])]
  {
    var p := AllProps[i];
    IndexPrefixStep(map[], AllProps, i, DisplayName, ClrName);
    IndexPrefixStep(map[], AllProps, i, ClrName, DefaultValue);
    AllPropsDistinct();
    forall q | q in AllProps[..i] ensures DisplayName(q) != DisplayName(p) && ClrName(q) != ClrName(p) {
      var j :| 0 <= j < i && AllProps[j] == q;
      NamesInjective(p, q);
    }
    IndexMissing(map[], AllProps[..i], DisplayName, ClrName, DisplayName(p));
    IndexMissing(map[], AllProps[..i], ClrName, DefaultValue, ClrName(p));
  }

  /** Each schema property appears once and has its own two names, so
      adding all of them never meets a repeated key. */
  lemma AllAddsSucceed()
    ensures IndexAdd(map[], AllProps, DisplayName, ClrName) == Ok(DefaultMenuItemProxy.DisplayNameCache())
    ensures IndexAdd(map[], AllProps, ClrName, DefaultValue) == Ok(DefaultMenuItemProxy.DefaultValueCache())
  {
    AllPropsDistinct();
    forall i, j | 0 <= i < j < |AllProps| ensures DisplayName(AllProps[i]) != DisplayName(AllProps[j]) && ClrName(AllProps[i]) != ClrName(AllProps[j]) {
      NamesInjective(AllProps[i], AllProps[j]);
    }
    IndexAddSucceeds(map[], AllProps, DisplayName, ClrName);
    IndexAddSucceeds(map[], AllProps, ClrName, DefaultValue);
  }

  /** The static constructor: for each schema property, Add its display name
      and its default to the two caches.  No Add meets a key already present,
      so the caches come out as the index of every property under both
      names. */
  method StaticConstructor() returns (caches: Caches)
    ensures Ok(caches.displayNames) == IndexAdd(map[], AllProps, DisplayName, ClrName)
    ensures Ok(caches.defaults) == IndexAdd(map[], AllProps, ClrName, DefaultValue)
    ensures caches == Caches(DefaultMenuItemProxy.DisplayNameCache(), DefaultMenuItemProxy.DefaultValueCache())
  {
    var displayNames: map<string, string> := map[];
    var defaults: map<string, Value> := map[];
    var i := 0;
    while i < |AllProps|
      invariant 0 <= i <= |AllProps|
      invariant displayNames == DefaultMenuItemProxy.Index(map[], AllProps[..i], DisplayName, ClrName)
      invariant defaults == DefaultMenuItemProxy.Index(map[], AllProps[..i], ClrName, DefaultValue)
    {
      var p := AllProps[i];
      AddStep(i);
      assert DisplayName(p) !in displayNames;
      displayNames := displayNames[DisplayName(p) := ClrName(p)];
      assert ClrName(p) !in defaults;
      defaults := defaults[ClrName(p) := DefaultValue(p)];
      i := i + 1;
    }
    assert AllProps[..i] == AllProps;
    AllAddsSucceed();
    caches := Caches(displayNames, defaults);
  }

  /** GetDefaultValue: the name as a C# property name, then as a display name;
      any other name throws. */
  function GetDefaultValue(name: string): Result<Value> {
    var names, defaults := DefaultMenuItemProxy.DisplayNameCache(), DefaultMenuItemProxy.DefaultValueCache();
    if name in defaults then Ok(defaults[name])
    else if name in names && names[name] in defaults then Ok(defaults[names[name]])
    else Err(Argument)
  }

  /** Both names of a property give the value of its default attribute;
      every other name throws. */
  lemma GetDefaultValueSpec(name: string, p: Prop)
    ensures GetDefaultValue(DisplayName(p)) == Ok(DefaultValue(p))
    ensures GetDefaultValue(ClrName(p)) == Ok(DefaultValue(p))
    ensures GetDefaultValue(name).Ok? <==> exists q: Prop :: name == DisplayName(q) || name == ClrName(q)
  {
    DefaultMenuItemProxy.DefaultValueEntry(p);
    DefaultMenuItemProxy.DisplayNameEntry(p);
    DefaultMenuItemProxy.DefaultValueKey(DisplayName(p));
    if DisplayName(p) in DefaultMenuItemProxy.DefaultValueCache() {
      var q :| ClrName(q) == DisplayName(p);
      DisplayNameIsNotClrName(p, q);
    }
    DefaultMenuItemProxy.DefaultValueKey(name);
    DefaultMenuItemProxy.DisplayNameKey(name);
    if name in DefaultMenuItemProxy.DisplayNameCache() {
      var q :| DisplayName(q) == name;
      DefaultMenuItemProxy.DisplayNameEntry(q);
      DefaultMenuItemProxy.DefaultValueEntry(q);
    }
    if exists q: Prop :: name == DisplayName(q) || name == ClrName(q) {
      var q: Prop :| name == DisplayName(q) || name == ClrName(q);
      DefaultMenuItemProxy.DisplayNameEntry(q);
      DefaultMenuItemProxy.DefaultValueEntry(q);
    }
  }

  /** IsDefaultValue: null arguments throw; arrays follow the array rule;
      other values are compared with this revision's GetDefaultValue. */
  function IsDefaultValue(name: Option<string>, value: Option<Value>): Result<bool> {
    if name.None? || value.None? then Err(ArgumentNull)
    else match DefaultMenuItemProxy.ArrayDefault(value.value)
      case Some(b) => Ok(b)
      case None =>
        match GetDefaultValue(name.value)
        case Err(e) => Err(e)
        case Ok(d) => Ok(d == value.value)
  }

  /** Both revisions agree on every non-null argument pair except non-array
      values named "shortcut" in a letter case other than that of the two
      schema names; for a name of the schema they always agree. */
  lemma SameAsDBusRevision(p: Prop, name: string, v: Value)
    requires name == DisplayName(p) || name == ClrName(p)
    ensures IsDefaultValue(Some(name), Some(v)) == DefaultMenuItemProxy.IsDefaultValue(Some(name), Some(v))
  {
    GetDefaultValueSpec(name, p);
    DefaultMenuItemProxy.GetDefaultValueOfDisplayName(p);
    DefaultMenuItemProxy.GetDefaultValueOfClrName(p);
  }

  /** GetAllDisplayNames copies out the keys of the display-name cache that
      the static constructor built with Add. */
  lemma AllDisplayNamesAreTheKeys()
    ensures IndexAdd(map[], AllProps, DisplayName, ClrName).Ok?
    ensures forall k :: k in DefaultMenuItemProxy.GetAllDisplayNames() <==> k in IndexAdd(map[], AllProps, DisplayName, ClrName).value
  {
    AllAddsSucceed();
    DefaultMenuItemProxy.AllDisplayNamesAreTheKeys();
  }

  /** A getter: GetDefaultValue<T>(C# name), a cast of the attribute value to
      the property's type.  The `shortcut` attribute holds a string[], which
      does not cast to string[][]. */
  function Getter(p: Prop): (r: Result<Value>)
    ensures r.Ok? <==> p != Shortcut
    ensures r.Ok? ==> r.value == DefaultValue(p) && GetDefaultValue(ClrName(p)) == r
  {
    GetDefaultValueSpec(ClrName(p), p);
    match GetDefaultValue(ClrName(p))
    case Err(e) => Err(e)
    case Ok(v) => if p == Shortcut then Err(InvalidCast) else Ok(v)
  }
}
