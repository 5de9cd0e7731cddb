/** The com.canonical.dbusmenu wire types the servers build, and the list
    operations both server revisions share: the identity registry, sparse
    property maps, per-entry partial failure and revision hand-out. */
module DBusMenuProtocol {
  import opened Wrappers
  import opened MenuItemSchema

  /** A node of GetLayout's reply, D-Bus type (ia{sv}av). */
  datatype Layout = Layout(id: int, properties: map<string, Value>, children: seq<Layout>)

  /** GetLayout's reply: the revision and the layout. */
  datatype LayoutReply = LayoutReply(revision: int, layout: Layout)

  /** One entry of GetGroupProperties' reply and of ItemsPropertiesUpdated,
      D-Bus type (ia{sv}). */
  datatype ItemProperties = ItemProperties(id: int, properties: map<string, Value>)

  /** One entry of EventGroup's argument.  Event data and timestamps are
      ignored by both servers. */
  datatype MenuEvent = MenuEvent(id: int, eventId: string)

  /** A signal delivered to one subscriber.  The removed-properties list of
      ItemsPropertiesUpdated is always empty and is not kept. */
  datatype Signal =
    | ItemsPropertiesUpdated(updated: seq<ItemProperties>)
    | LayoutUpdated(revision: int, parent: int)

  /** A change of a host item that the servers turn into signals. */
  datatype Change = TextChanged | EnabledChanged | AvailableChanged | CheckStateChanged

  /** The layout revision is a C# `uint`. */
  const RevisionModulus: int := 0x1_0000_0000

  /** The levels of a layout request below depth `depth`: -1 (every level)
      when the recursion bound `maxDepth` is negative. */
  function Levels(depth: int, maxDepth: int): int {
    if maxDepth < 0 then -1 else maxDepth - depth
  }

  /** The levels left one level further down: unbounded stays unbounded. */
  function Below(k: int): int {
    if k < 0 then k else k - 1
  }

  /** Where children are requested, the next level down has one level
      fewer to go, and at least one level was left here. */
  lemma LevelsBelow(depth: int, maxDepth: int)
    requires maxDepth < 0 || depth < maxDepth
    ensures Below(Levels(depth, maxDepth)) == Levels(depth + 1, maxDepth)
    ensures Levels(depth, maxDepth) != 0
  {
  }

  /** The revision `n` increments (`revision++` on a uint) after `revision`. */
  function Advance(revision: int, n: int): int {
    (revision + n) % RevisionModulus
  }

  /** List.IndexOf: the first index holding `x`, or -1. */
  function IndexOf<T(==)>(s: seq<T>, x: T): (i: int)
    ensures -1 <= i < |s|
    ensures i == -1 <==> x !in s
    ensures 0 <= i ==> s[i] == x && forall j :: 0 <= j < i ==> s[j] != x
  {
    if |s| == 0 then -1
    else if s[0] == x then 0
    else
      var k := IndexOf(s[1..], x);
      if k < 0 then -1 else k + 1
  }

  /** No item occupies two slots of a registry (empty slots may repeat). */
  predicate NoDuplicates<T(==)>(s: seq<Option<T>>) {
    forall i, j :: 0 <= i < j < |s| && s[i].Some? ==> s[i] != s[j]
  }

  /** The id of a registered item is its slot. */
  lemma IndexOfRegistered<T>(s: seq<Option<T>>, i: int)
    requires NoDuplicates(s)
    requires 0 <= i < |s| && s[i].Some?
    ensures IndexOf(s, s[i]) == i
  {
  }

  /** Once its slot is emptied, an item has no id: IndexOf gives -1. */
  lemma TombstonedHasNoId<T>(s: seq<Option<T>>, i: int)
    requires NoDuplicates(s)
    requires 0 <= i < |s| && s[i].Some?
    ensures NoDuplicates(s[i := None])
    ensures IndexOf(s[i := None], s[i]) == -1
  {
  }

  /** `if (!list.Contains(x)) list.Add(x)`. */
  function AddIfAbsent<T(==)>(s: seq<Option<T>>, x: T): seq<Option<T>> {
    if Some(x) in s then s else s + [Some(x)]
  }

  /** AddIfAbsent for each of `xs` in turn. */
  function AddAll<T(==)>(s: seq<Option<T>>, xs: seq<T>): seq<Option<T>> {
    if xs == [] then s else AddIfAbsent(AddAll(s, xs[..|xs| - 1]), xs[|xs| - 1])
  }

  /** Registration only appends: existing slots keep their contents, so
      existing ids never change; every new slot holds one of `xs`; every item
      of `xs` ends up registered exactly once. */
  lemma {:induction false} AddAllSpec<T>(s: seq<Option<T>>, xs: seq<T>)
    ensures |s| <= |AddAll(s, xs)| <= |s| + |xs|
    ensures AddAll(s, xs)[..|s|] == s
    ensures forall y :: Some(y) in AddAll(s, xs) <==> Some(y) in s || y in xs
    ensures forall i :: |s| <= i < |AddAll(s, xs)| ==> AddAll(s, xs)[i].Some? && AddAll(s, xs)[i].value in xs
    ensures NoDuplicates(s) ==> NoDuplicates(AddAll(s, xs))
  {
    if xs != [] {
      var init, last := xs[..|xs| - 1], xs[|xs| - 1];
      AddAllSpec(s, init);
      var r0 := AddAll(s, init);
      assert forall y :: y in init ==> y in xs;
      assert forall y :: y in xs ==> y in init || y == last;
      if Some(last) !in r0 {
        assert AddAll(s, xs) == r0 + [Some(last)];
        assert (r0 + [Some(last)])[..|s|] == r0[..|s|];
      }
    }
  }

  /** Registering two lists in turn is registering their concatenation. */
  lemma {:induction false} AddAllAppend<T>(s: seq<Option<T>>, a: seq<T>, b: seq<T>)
    ensures AddAll(s, a + b) == AddAll(AddAll(s, a), b)
  {
    if b == [] {
      assert a + b == a;
    } else {
      assert (a + b)[..|a + b| - 1] == a + b[..|b| - 1];
      AddAllAppend(s, a, b[..|b| - 1]);
    }
  }

  /** A loop over `s` extends the prefix it has walked by one element. */
  lemma PrefixStep<T>(s: seq<T>, i: int)
    requires 0 <= i < |s|
    ensures s[..i + 1] == s[..i] + [s[i]]
  {
  }

  /** The elements of `s` that satisfy `keep`, in order. */
  function Filter<T>(s: seq<T>, keep: T -> bool): seq<T> {
    if s == [] then []
    else Filter(s[..|s| - 1], keep) + (if keep(s[|s| - 1]) then [s[|s| - 1]] else [])
  }

  /** The filter keeps exactly the kept elements of `s`. */
  lemma {:induction false} FilterSpec<T>(s: seq<T>, keep: T -> bool)
    ensures |Filter(s, keep)| <= |s|
    ensures forall x :: x in Filter(s, keep) <==> x in s && keep(x)
  {
    if s != [] {
      FilterSpec(s[..|s| - 1], keep);
      assert forall x :: x in s <==> x in s[..|s| - 1] || x == s[|s| - 1];
    }
  }

  /** Batches are processed entry by entry: the filter of a concatenation is
      the concatenation of the filters. */
  lemma {:induction false} FilterAppend<T>(a: seq<T>, b: seq<T>, keep: T -> bool)
    ensures Filter(a + b, keep) == Filter(a, keep) + Filter(b, keep)
  {
    if b == [] {
      assert a + b == a;
    } else {
      assert (a + b)[..|a + b| - 1] == a + b[..|b| - 1];
      FilterAppend(a, b[..|b| - 1], keep);
    }
  }

  /** Filtering one more element adds it when it is kept. */
  lemma FilterLast<T>(init: seq<T>, last: T, keep: T -> bool)
    ensures multiset(Filter(init + [last], keep)) == multiset(Filter(init, keep)) + (if keep(last) then multiset{last} else multiset{})
  {
    assert (init + [last])[..|init|] == init;
  }

  /** Two complementary filters split `s` into two lists that together hold
      every element exactly as often as `s` does. */
  lemma {:induction false} FilterPartition<T>(s: seq<T>, keep: T -> bool, drop: T -> bool)
    requires forall x :: x in s ==> keep(x) != drop(x)
    ensures multiset(Filter(s, keep)) + multiset(Filter(s, drop)) == multiset(s)
  {
    if s != [] {
      var init, last := s[..|s| - 1], s[|s| - 1];
      assert s == init + [last];
      FilterPartition(init, keep, drop);
      FilterLast(init, last, keep);
      FilterLast(init, last, drop);
    }
  }

  /** The ids of the entries of `events` that failed, in order. */
  function FailedIds(events: seq<MenuEvent>, fails: MenuEvent -> bool): (ids: seq<int>)
    ensures |ids| <= |events|
  {
    FilterSpec(events, fails);
    seq(|Filter(events, fails)|, i requires 0 <= i < |Filter(events, fails)| => Filter(events, fails)[i].id)
  }

  /** One more event adds its id when it fails. */
  lemma FailedIdsStep(a: seq<MenuEvent>, e: MenuEvent, fails: MenuEvent -> bool)
    ensures FailedIds(a + [e], fails) == FailedIds(a, fails) + (if fails(e) then [e.id] else [])
  {
    assert (a + [e])[..|a|] == a;
    assert Filter(a + [e], fails) == Filter(a, fails) + (if fails(e) then [e] else []);
  }

  /** An id is reported iff an entry with that id failed; reports keep batch
      order. */
  lemma FailedIdsSpec(a: seq<MenuEvent>, b: seq<MenuEvent>, fails: MenuEvent -> bool)
    ensures forall x :: x in FailedIds(a, fails) <==> exists e :: e in a && fails(e) && e.id == x
    ensures FailedIds(a + b, fails) == FailedIds(a, fails) + FailedIds(b, fails)
  {
    FilterSpec(a, fails);
    FilterAppend(a, b, fails);
    forall x | x in FailedIds(a, fails) ensures exists e :: e in a && fails(e) && e.id == x {
      var i :| 0 <= i < |FailedIds(a, fails)| && FailedIds(a, fails)[i] == x;
      assert Filter(a, fails)[i] in Filter(a, fails);
    }
    forall x | exists e :: e in a && fails(e) && e.id == x ensures x in FailedIds(a, fails) {
      var e :| e in a && fails(e) && e.id == x;
      var i :| 0 <= i < |Filter(a, fails)| && Filter(a, fails)[i] == e;
      assert FailedIds(a, fails)[i] == x;
    }
  }

  /** The ItemsPropertiesUpdated signals of one call with `n` subscribers:
      the same update, delivered to each. */
  function PropertyDeliveries(updated: seq<ItemProperties>, n: nat): (r: seq<Signal>)
    ensures |r| == n
    ensures forall i :: 0 <= i < n ==> r[i] == ItemsPropertiesUpdated(updated)
  {
    if n == 0 then [] else PropertyDeliveries(updated, n - 1) + [ItemsPropertiesUpdated(updated)]
  }

  /** The LayoutUpdated signals of one OnLayoutUpdated call with `n`
      subscribers: the i-th delivery carries the revision handed out i-th. */
  function LayoutDeliveries(revision: int, parent: int, n: nat): (r: seq<Signal>)
    ensures |r| == n
  {
    seq(n, i requires 0 <= i < n => LayoutUpdated(Advance(revision, i), parent))
  }

  /** Every delivery names the same parent; each revision is the previous one
      plus one (modulo 2^32), starting at the current revision; the revision
      left behind is one past the last handed out. */
  lemma LayoutDeliveriesSpec(revision: int, parent: int, n: nat)
    requires 0 <= revision < RevisionModulus
    ensures forall i :: 0 <= i < n ==> LayoutDeliveries(revision, parent, n)[i].parent == parent
    ensures n > 0 ==> LayoutDeliveries(revision, parent, n)[0].revision == revision
    ensures forall i :: 0 < i < n ==>
      LayoutDeliveries(revision, parent, n)[i].revision == (LayoutDeliveries(revision, parent, n)[i - 1].revision + 1) % RevisionModulus
    ensures n > 0 ==> Advance(revision, n) == (LayoutDeliveries(revision, parent, n)[n - 1].revision + 1) % RevisionModulus
  {
    var r := LayoutDeliveries(revision, parent, n);
    forall i | 0 < i < n ensures r[i].revision == (r[i - 1].revision + 1) % RevisionModulus {
      ModSucc(revision + i - 1);
    }
    if n > 0 {
      ModSmall(revision);
      ModSucc(revision + n - 1);
    }
  }

  /** Without wrap-around the revisions handed out strictly increase. */
  lemma LayoutDeliveriesIncrease(revision: int, parent: int, n: nat)
    requires 0 <= revision && revision + n <= RevisionModulus
    ensures forall i, j :: 0 <= i < j < n ==>
      LayoutDeliveries(revision, parent, n)[i].revision < LayoutDeliveries(revision, parent, n)[j].revision
  {
    forall i | 0 <= i < n ensures LayoutDeliveries(revision, parent, n)[i].revision == revision + i {
      ModSmall(revision + i);
    }
  }

  /** The revision left behind, which GetLayout then reports, is none of the
      revisions just handed out, as long as fewer than 2^32 were handed out. */
  lemma LeftRevisionNotDelivered(revision: int, parent: int, n: nat)
    requires 0 <= revision < RevisionModulus && n < RevisionModulus
    ensures forall i :: 0 <= i < n ==> LayoutDeliveries(revision, parent, n)[i].revision != Advance(revision, n)
  {
    forall i | 0 <= i < n ensures LayoutDeliveries(revision, parent, n)[i].revision != Advance(revision, n) {
      var a, b := revision + i, revision + n;
      if b < RevisionModulus {
        ModSmall(a);
        ModSmall(b);
      } else if a < RevisionModulus {
        ModSmall(a);
        ModSmall(b - RevisionModulus);
      } else {
        ModSmall(a - RevisionModulus);
        ModSmall(b - RevisionModulus);
      }
    }
  }

  /** A revision in range is its own remainder. */
  lemma ModSmall(x: int)
    requires 0 <= x < RevisionModulus
    ensures x % RevisionModulus == x
  {
  }

  /** Incrementing commutes with wrapping at 2^32. */
  lemma ModSucc(x: int)
    ensures (x + 1) % RevisionModulus == (x % RevisionModulus + 1) % RevisionModulus
  {
    var q, r := x / RevisionModulus, x % RevisionModulus;
    assert x == q * RevisionModulus + r;
    if r + 1 < RevisionModulus {
      assert x + 1 == q * RevisionModulus + (r + 1);
    } else {
      assert x + 1 == (q + 1) * RevisionModulus;
    }
  }

  /** The property a host change announces. */
  function ChangedProp(change: Change): Prop {
    match change
    case TextChanged => Label
    case EnabledChanged => Enabled
    case AvailableChanged => Visible
    case CheckStateChanged => ToggleState
  }

  /** The items clicked by a batch of events, in order, given what each event
      does: throw, do nothing or click an item. */
  function Clicks<H(!new)>(events: seq<MenuEvent>, outcome: MenuEvent -> Result<Option<H>>): seq<H> {
    if events == [] then []
    else Clicks(events[..|events| - 1], outcome) + ClickOf(outcome(events[|events| - 1]))
  }

  /** A click on `h` once it has run on the WinForms thread: the item is
      clicked when PerformClick completes; the exception of the marshalling
      or of a Click handler reaches the caller otherwise. */
  function ClickResult<H>(h: H, performed: Outcome): (r: Result<Option<H>>)
    ensures r.Ok? <==> performed.Pass?
    ensures r.Ok? ==> r.value == Some(h)
    ensures r.Err? ==> r.error == performed.error
  {
    match performed
    case Pass => Ok(Some(h))
    case Fail(e) => Err(e)
  }

  /** The item one event clicks, if any. */
  function ClickOf<H(!new)>(outcome: Result<Option<H>>): (r: seq<H>)
    ensures |r| <= 1
    ensures forall h :: h in r <==> outcome == Ok(Some(h))
  {
    match outcome
    case Ok(Some(h)) => [h]
    case _ => []
  }

  /** An item is clicked iff some event of the batch clicks it. */
  lemma {:induction false} ClicksSpec<H(!new)>(events: seq<MenuEvent>, outcome: MenuEvent -> Result<Option<H>>)
    ensures forall h :: h in Clicks(events, outcome) <==> exists e :: e in events && outcome(e) == Ok(Some(h))
  {
    if events != [] {
      var init, e := events[..|events| - 1], events[|events| - 1];
      ClicksSpec(init, outcome);
      assert forall x :: x in events <==> x in init || x == e;
    }
  }

  /** One more event adds the item it clicks. */
  lemma ClicksStep<H(!new)>(a: seq<MenuEvent>, e: MenuEvent, outcome: MenuEvent -> Result<Option<H>>)
    ensures Clicks(a + [e], outcome) == Clicks(a, outcome) + ClickOf(outcome(e))
  {
    assert (a + [e])[..|a|] == a;
  }
}
