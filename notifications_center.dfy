// The dashboard's notification centre: a fixed list of notifications, a type filter that
// toggles, dismissal by id and an expand/collapse toggle on each entry.

module Notifications {
  import opened Wrappers

  datatype Kind = Proposal | Message | Voting | Alert

  /** One row of the type table: the badge colour and whether accept/dismiss buttons show. */
  datatype KindStyle = KindStyle(color: string, actionable: bool)

  datatype Notification = Notification(id: string, kind: Kind, title: string, description: string,
                                       time: string, priority: string)

  function Style(k: Kind): KindStyle {
    match k
    case Proposal => KindStyle("bg-blue-100 text-blue-600", true)
    case Message => KindStyle("bg-green-100 text-green-600", true)
    case Voting => KindStyle("bg-purple-100 text-purple-600", true)
    case Alert => KindStyle("bg-red-100 text-red-600", false)
  }

  /** The filter buttons, in the order the type table lists its keys. */
  const Kinds: seq<Kind> := [Proposal, Message, Voting, Alert]

  /** The list every filter starts from; nothing ever changes it. */
  const BaseList: seq<Notification> := [
    Notification("1", Proposal, "New Governance Proposal",
                 "A new governance proposal needs your attention", "10m ago", "high"),
    Notification("2", Message, "Community Message",
                 "You received a new message from the community", "1h ago", "medium"),
    Notification("3", Voting, "Voting Period Ending",
                 "Voting period for Proposal #123 ends in 2 days", "2h ago", "high"),
    Notification("4", Alert, "Security Update",
                 "Potential security vulnerability detected", "3h ago", "critical")
  ]

  // ---------------------------------------------------------------------------------------
  // Order-preserving filtering

  /** `a` is `b` with some entries removed and the rest in their original order. */
  predicate Subseq<T(==)>(a: seq<T>, b: seq<T>)
    decreases |b|
  {
    if a == [] then true
    else if b == [] then false
    else (a[0] == b[0] && Subseq(a[1..], b[1..])) || Subseq(a, b[1..])
  }

  /** `Array.prototype.filter`: the entries satisfying `p`, in order. */
  function Filter<T(==,!new)>(xs: seq<T>, p: T -> bool): (r: seq<T>)
    ensures Subseq(r, xs)
    ensures forall x :: x in r <==> x in xs && p(x)
    ensures |r| <= |xs|
    ensures |r| == |xs| <==> forall x | x in xs :: p(x)
  {
    if xs == [] then []
    else
      var rest := Filter(xs[1..], p);
      assert forall x | x in xs :: x == xs[0] || x in xs[1..];
      if p(xs[0]) then
        SubseqCons(rest, xs);
        [xs[0]] + rest
      else
        SubseqDrop(rest, xs);
        rest
  }

  /** Filtering keeps every copy of a passing entry: duplicates are not collapsed. */
  lemma {:induction false} FilterCounts<T(!new)>(xs: seq<T>, p: T -> bool, x: T)
    requires p(x)
    ensures multiset(Filter(xs, p))[x] == multiset(xs)[x]
  {
    if xs != [] {
      FilterCounts(xs[1..], p, x);
      assert xs == [xs[0]] + xs[1..];
    }
  }

  lemma SubseqCons<T>(a: seq<T>, b: seq<T>)
    requires b != [] && Subseq(a, b[1..])
    ensures Subseq([b[0]] + a, b)
  {
    assert ([b[0]] + a)[1..] == a;
  }

  lemma SubseqDrop<T>(a: seq<T>, b: seq<T>)
    requires b != [] && Subseq(a, b[1..])
    ensures Subseq(a, b)
  {
  }

  lemma {:induction false} SubseqLength<T>(a: seq<T>, b: seq<T>)
    requires Subseq(a, b)
    ensures |a| <= |b|
    decreases |b|
  {
    if a != [] {
      if a[0] == b[0] && Subseq(a[1..], b[1..]) {
        SubseqLength(a[1..], b[1..]);
      } else {
        SubseqLength(a, b[1..]);
      }
    }
  }

  /** Removing entries twice is removing entries once. */
  lemma {:induction false} SubseqTransitive<T>(a: seq<T>, b: seq<T>, c: seq<T>)
    requires Subseq(a, b) && Subseq(b, c)
    ensures Subseq(a, c)
    decreases |c|
  {
    if a == [] {
    } else if b != [] && b[0] == c[0] && Subseq(b[1..], c[1..]) {
      if a[0] == b[0] && Subseq(a[1..], b[1..]) {
        SubseqTransitive(a[1..], b[1..], c[1..]);
      } else {
        SubseqTransitive(a, b[1..], c[1..]);
      }
    } else {
      SubseqTransitive(a, b, c[1..]);
    }
  }

  /** A subsequence whose entries all satisfy `p` survives filtering by `p`. */
  lemma {:induction false} SubseqOfFilter<T(!new)>(a: seq<T>, b: seq<T>, p: T -> bool)
    requires Subseq(a, b)
    requires forall x | x in a :: p(x)
    ensures Subseq(a, Filter(b, p))
    decreases |b|
  {
    if a != [] {
      var rest := Filter(b[1..], p);
      if a[0] == b[0] && Subseq(a[1..], b[1..]) {
        assert forall x | x in a[1..] :: x in a;
        SubseqOfFilter(a[1..], b[1..], p);
        assert a[0] in a;
        assert Filter(b, p) == [b[0]] + rest;
        assert ([b[0]] + rest)[1..] == rest;
      } else {
        SubseqOfFilter(a, b[1..], p);
        if p(b[0]) {
          assert Filter(b, p) == [b[0]] + rest;
          assert ([b[0]] + rest)[1..] == rest;
        }
      }
    }
  }

  /** Filtering by a test every entry passes changes nothing. */
  lemma {:induction false} FilterKeepsAll<T(!new)>(xs: seq<T>, p: T -> bool)
    requires forall x | x in xs :: p(x)
    ensures Filter(xs, p) == xs
  {
    if xs != [] {
      assert forall x | x in xs[1..] :: x in xs;
      FilterKeepsAll(xs[1..], p);
      assert xs[0] in xs;
      assert [xs[0]] + xs[1..] == xs;
    }
  }

  // ---------------------------------------------------------------------------------------
  // The tests the component filters with

  function HasKind(k: Kind): Notification -> bool {
    (n: Notification) => n.kind == k
  }

  function LacksId(id: string): Notification -> bool {
    (n: Notification) => n.id != id
  }

  /** The list a type filter shows: the base entries of that type, in base order. */
  function OfKind(k: Kind): (r: seq<Notification>)
    ensures Subseq(r, BaseList)
    ensures forall n :: n in r <==> n in BaseList && n.kind == k
  {
    Filter(BaseList, HasKind(k))
  }

  /** The base list holds exactly one notification of each type. */
  lemma OneOfEachKind(k: Kind)
    ensures |OfKind(k)| == 1
    ensures OfKind(k) == [BaseList[match k case Proposal => 0 case Message => 1 case Voting => 2 case Alert => 3]]
  {
    var b := BaseList;
    assert b[1..][1..][1..][1..] == [];
    var p := HasKind(k);
    assert Filter(b[1..][1..][1..][1..], p) == [];
    assert Filter(b[1..][1..][1..], p) == if k == Alert then [b[3]] else [];
    assert Filter(b[1..][1..], p) == if k == Voting then [b[2]] else Filter(b[1..][1..][1..], p);
    assert Filter(b[1..], p) == if k == Message then [b[1]] + Filter(b[1..][1..], p) else Filter(b[1..][1..], p);
    assert Filter(b, p) == if k == Proposal then [b[0]] + Filter(b[1..], p) else Filter(b[1..], p);
  }

  /** Whether an entry shows accept/dismiss buttons, from its type's row of the table. */
  predicate ActionsShown(n: Notification) {
    Style(n.kind).actionable
  }

  /** Only proposals, messages and votes carry accept/dismiss buttons; alerts do not. */
  lemma ActionableKinds(n: Notification)
    ensures ActionsShown(n) <==> n.kind != Alert
    ensures ActionsShown(n) <==> n.kind in Kinds[..3]
  {
    assert Kinds[..3] == [Proposal, Message, Voting];
  }

  /** Dismissing the same id twice leaves the list as the first dismissal did. */
  lemma DismissTwice(xs: seq<Notification>, id: string)
    ensures Filter(Filter(xs, LacksId(id)), LacksId(id)) == Filter(xs, LacksId(id))
  {
    FilterKeepsAll(Filter(xs, LacksId(id)), LacksId(id));
  }

  /** Dismissing an id that is not on the list changes nothing. */
  lemma DismissAbsent(xs: seq<Notification>, id: string)
    requires forall n | n in xs :: n.id != id
    ensures Filter(xs, LacksId(id)) == xs
  {
    FilterKeepsAll(xs, LacksId(id));
  }

  // ---------------------------------------------------------------------------------------
  // The component's state

  class NotificationsCenter {
    var filtered: seq<Notification>
    var activeFilter: Option<Kind>
    var expanded: Option<Notification>

    /** What is shown is always the base list with some entries removed, and under an
        active type filter only entries of that type. */
    ghost predicate Valid()
      reads this
    {
      && Subseq(filtered, BaseList)
      && (activeFilter.Some? ==> forall n | n in filtered :: n.kind == activeFilter.value)
    }

    constructor()
      ensures Valid()
      ensures filtered == BaseList && activeFilter == None && expanded == None
    {
      filtered := BaseList;
      activeFilter := None;
      expanded := None;
      SubseqRefl(BaseList);
    }

    static lemma {:induction false} SubseqRefl(xs: seq<Notification>)
      ensures Subseq(xs, xs)
    {
      if xs != [] {
        SubseqRefl(xs[1..]);
      }
    }

    /** `filterNotifications`: a type shows that type's base entries, no type the whole base
        list again, so that earlier dismissals reappear. */
    method FilterNotifications(kind: Option<Kind>)
      requires Valid()
      modifies this
      ensures Valid()
      ensures activeFilter == kind
      ensures filtered == if kind.Some? then OfKind(kind.value) else BaseList
      ensures expanded == old(expanded)
    {
      activeFilter := kind;
      if kind.Some? {
        filtered := Filter(BaseList, HasKind(kind.value));
      } else {
        filtered := BaseList;
        SubseqRefl(BaseList);
      }
    }

    /** A type button: pressing the active type clears the filter, any other type sets it. */
    method OnKindButton(k: Kind)
      requires Valid()
      modifies this
      ensures Valid()
      ensures activeFilter == if old(activeFilter) == Some(k) then None else Some(k)
      ensures filtered == if activeFilter.Some? then OfKind(k) else BaseList
      ensures expanded == old(expanded)
    {
      FilterNotifications(if activeFilter == Some(k) then None else Some(k));
    }

    /** `handleNotificationAction`: accept and dismiss alike drop every shown entry with the
        id, keep the rest in order, and leave the base list and the filter as they are. */
    method HandleNotificationAction(id: string, action: string)
      requires Valid()
      modifies this
      ensures Valid()
      ensures filtered == Filter(old(filtered), LacksId(id))
      ensures forall n :: n in filtered <==> n in old(filtered) && n.id != id
      ensures activeFilter == old(activeFilter) && expanded == old(expanded)
    {
      var kept := Filter(filtered, LacksId(id));
      SubseqTransitive(kept, filtered, BaseList);
      filtered := kept;
    }

    /** Clicking an entry collapses it when it is the expanded one (matched by id) and
        otherwise expands it in place of any other. */
    method OnNotificationClick(n: Notification)
      modifies this
      ensures expanded == if old(expanded).Some? && old(expanded).value.id == n.id then None else Some(n)
      ensures filtered == old(filtered) && activeFilter == old(activeFilter)
    {
      if expanded.Some? && expanded.value.id == n.id {
        expanded := None;
      } else {
        expanded := Some(n);
      }
    }

    /** The badge beside the title: how many entries are shown. It never exceeds the base
        list, and under a type filter it is at most one, as each type occurs once. */
    function BadgeCount(): (count: nat)
      reads this
      requires Valid()
      ensures count == |filtered|
      ensures count <= |BaseList|
      ensures activeFilter.Some? ==> count <= 1
    {
      SubseqLength(filtered, BaseList);
      if activeFilter.Some? then
        SubseqOfFilter(filtered, BaseList, HasKind(activeFilter.value));
        OneOfEachKind(activeFilter.value);
        SubseqLength(filtered, OfKind(activeFilter.value));
        |filtered|
      else
        |filtered|
    }

    /** Whether an entry shows its description: it is the expanded one, by id. */
    predicate DescriptionShown(n: Notification)
      reads this
    {
      expanded.Some? && expanded.value.id == n.id
    }
  }

  /** Expanding an entry and clicking it again collapses it; clicking another entry moves
      the expansion there. */
  method ClickTwiceCollapses(c: NotificationsCenter, n: Notification, m: Notification)
    requires c.expanded == None
    modifies c
    ensures c.DescriptionShown(m) <==> m.id != n.id
  {
    c.OnNotificationClick(n);
    assert c.DescriptionShown(n);
    c.OnNotificationClick(m);
  }
}
