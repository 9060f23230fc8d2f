/** What a reference-counted library list must still hold.
  *
  * `order` is the list of loaded libraries, newest first; `deps[l]` is the dependency list of
  * `l`; `roots` counts the references that come from outside those dependency lists. */
module LibraryGraph {

  ghost predicate Distinct<L>(order: seq<L>) {
    forall i, j :: 0 <= i < j < |order| ==> order[i] != order[j]
  }

  /** Every dependency of a library sits behind it in the list. */
  ghost predicate DepsBehind<L>(order: seq<L>, deps: map<L, seq<L>>) {
    && (forall l :: l in order ==> l in deps)
    && (forall i, d {:trigger d in deps[order[i]]} :: 0 <= i < |order| && d in deps[order[i]] ==> d in order[i + 1..])
  }

  /** The references that the dependency lists of `order` hold, with multiplicity. */
  ghost function DepRefs<L>(order: seq<L>, deps: map<L, seq<L>>): multiset<L>
    requires forall l :: l in order ==> l in deps
  {
    if order == [] then multiset{}
    else multiset(deps[order[0]]) + DepRefs(order[1..], deps)
  }

  /** One pass, newest to oldest: a library stays if a root or a newer library that stays holds it. */
  ghost function Live<L>(order: seq<L>, deps: map<L, seq<L>>, roots: multiset<L>): (r: seq<L>)
    requires forall l :: l in order ==> l in deps
    ensures |r| <= |order|
    ensures forall l :: l in r ==> l in order
  {
    if order == [] then []
    else if roots[order[0]] == 0 then Live(order[1..], deps, roots)
    else [order[0]] + Live(order[1..], deps, roots + multiset(deps[order[0]]))
  }

  /** A chain of holders from a root to its last element. */
  ghost predicate HolderPath<L>(p: seq<L>, deps: map<L, seq<L>>, roots: multiset<L>) {
    && p != []
    && p[0] in roots
    && (forall i :: 0 <= i < |p| - 1 ==> p[i] in deps && p[i + 1] in deps[p[i]])
  }

  ghost predicate Reachable<L(!new)>(l: L, deps: map<L, seq<L>>, roots: multiset<L>) {
    exists p :: HolderPath(p, deps, roots) && p[|p| - 1] == l
  }

  lemma {:induction false} DepRefsAppend<L>(a: seq<L>, b: seq<L>, deps: map<L, seq<L>>)
    requires forall l :: l in a + b ==> l in deps
    ensures (forall l :: l in a ==> l in deps) && (forall l :: l in b ==> l in deps)
    ensures DepRefs(a + b, deps) == DepRefs(a, deps) + DepRefs(b, deps)
  {
    assert forall l :: l in a ==> l in a + b;
    assert forall l :: l in b ==> l in a + b;
    if a == [] {
      assert a + b == b;
    } else {
      assert (a + b)[1..] == a[1..] + b;
      DepRefsAppend(a[1..], b, deps);
    }
  }

  /** Only the libraries of `order` itself can change what its lists hold. */
  lemma {:induction false} DepRefsFrame<L>(order: seq<L>, deps: map<L, seq<L>>, deps': map<L, seq<L>>)
    requires forall l :: l in order ==> l in deps && l in deps' && deps[l] == deps'[l]
    ensures DepRefs(order, deps) == DepRefs(order, deps')
  {
    if order == [] {
    } else {
      DepRefsFrame(order[1..], deps, deps');
    }
  }

  lemma {:induction false} LiveFrame<L>(order: seq<L>, deps: map<L, seq<L>>, deps': map<L, seq<L>>, roots: multiset<L>)
    requires forall l :: l in order ==> l in deps && l in deps' && deps[l] == deps'[l]
    ensures Live(order, deps, roots) == Live(order, deps', roots)
  {
    if order == [] {
    } else {
      LiveFrame(order[1..], deps, deps', roots);
      LiveFrame(order[1..], deps, deps', roots + multiset(deps[order[0]]));
    }
  }

  /** No list holds anything outside `held`. */
  lemma {:induction false} DepRefsWithin<L>(order: seq<L>, deps: map<L, seq<L>>, l: L)
    requires forall x :: x in order ==> x in deps
    requires forall x :: x in order ==> l !in deps[x]
    ensures l !in DepRefs(order, deps)
  {
    if order == [] {
    } else {
      DepRefsWithin(order[1..], deps, l);
      assert l !in multiset(deps[order[0]]);
    }
  }

  /** Nothing at or behind a library holds it. */
  lemma {:induction false} NoRefsFromBehind<L>(order: seq<L>, deps: map<L, seq<L>>, k: nat)
    requires Distinct(order) && DepsBehind(order, deps) && k < |order|
    ensures forall l :: l in order[k..] ==> l in deps
    ensures order[k] !in DepRefs(order[k..], deps)
  {
    forall x | x in order[k..]
      ensures x in deps && order[k] !in deps[x]
    {
      var i :| k <= i < |order| && order[i] == x;
      assert order[i] in order;
      assert order[k] !in order[i + 1..];
    }
    DepRefsWithin(order[k..], deps, order[k]);
  }

  lemma RootsShift<L>(h: L, rest: seq<L>, deps: map<L, seq<L>>, roots: multiset<L>)
    requires h in deps && forall l :: l in rest ==> l in deps
    ensures roots + DepRefs([h] + rest, deps) == roots + multiset(deps[h]) + DepRefs(rest, deps)
  {
    assert ([h] + rest)[1..] == rest;
  }

  lemma LiveUnfold<L>(order: seq<L>, deps: map<L, seq<L>>, roots: multiset<L>)
    requires order != [] && forall l :: l in order ==> l in deps
    ensures Live(order, deps, roots)
         == if roots[order[0]] == 0 then Live(order[1..], deps, roots)
            else [order[0]] + Live(order[1..], deps, roots + multiset(deps[order[0]]))
  {
  }

  lemma NothingLive<L>(deps: map<L, seq<L>>, roots: multiset<L>)
    ensures Live([], deps, roots) == [] && DepRefs([], deps) == multiset{}
  {
  }

  lemma {:induction false} LiveAppend<L>(a: seq<L>, b: seq<L>, deps: map<L, seq<L>>, roots: multiset<L>)
    requires (forall l :: l in a ==> l in deps) && (forall l :: l in b ==> l in deps)
    ensures Live(a + b, deps, roots)
         == Live(a, deps, roots) + Live(b, deps, roots + DepRefs(Live(a, deps, roots), deps))
  {
    hide Live, DepRefs;
    if a == [] {
      assert a + b == b && a == [];
      NothingLive(deps, roots);
      assert Live(a, deps, roots) == [] && roots + DepRefs([], deps) == roots;
    } else {
      var h, tail := a[0], a[1..];
      assert (a + b)[0] == h && (a + b)[1..] == tail + b;
      LiveUnfold(a, deps, roots);
      LiveUnfold(a + b, deps, roots);
      if roots[h] == 0 {
        LiveAppend(tail, b, deps, roots);
      } else {
        LiveAppend(tail, b, deps, roots + multiset(deps[h]));
        LiveBehind(h, Live(tail, deps, roots + multiset(deps[h])), b, deps, roots);
      }
    }
  }

  /** The references of `h` are roots for what comes behind it. */
  lemma LiveBehind<L>(h: L, front: seq<L>, b: seq<L>, deps: map<L, seq<L>>, roots: multiset<L>)
    requires h in deps && (forall l :: l in front ==> l in deps) && (forall l :: l in b ==> l in deps)
    ensures [h] + (front + Live(b, deps, roots + multiset(deps[h]) + DepRefs(front, deps)))
         == [h] + front + Live(b, deps, roots + DepRefs([h] + front, deps))
  {
    hide Live, DepRefs;
    RootsShift(h, front, deps, roots);
  }

  /** Dropping roots in two rounds is dropping them at once. */
  lemma {:induction false} LiveTwice<L>(order: seq<L>, deps: map<L, seq<L>>, more: multiset<L>, fewer: multiset<L>)
    requires forall l :: l in order ==> l in deps
    requires fewer <= more
    ensures Live(Live(order, deps, more), deps, fewer) == Live(order, deps, fewer)
    decreases |order|
  {
    if order == [] {
    } else if more[order[0]] == 0 {
      LiveTwice(order[1..], deps, more, fewer);
    } else {
      var more' := more + multiset(deps[order[0]]);
      var inner := Live(order[1..], deps, more');
      assert ([order[0]] + inner)[1..] == inner;
      if fewer[order[0]] == 0 {
        LiveTwice(order[1..], deps, more', fewer);
      } else {
        LiveTwice(order[1..], deps, more', fewer + multiset(deps[order[0]]));
      }
    }
  }

  /** What holds a library is a root or a newer library. */
  lemma HeldFromFront<L>(order: seq<L>, deps: map<L, seq<L>>, roots: multiset<L>, k: nat)
    requires Distinct(order) && DepsBehind(order, deps)
    requires k < |order| && order[k] in roots + DepRefs(order, deps)
    ensures forall l :: l in order[..k] ==> l in deps
    ensures order[k] in roots + DepRefs(order[..k], deps)
  {
    assert order == order[..k] + order[k..];
    DepRefsAppend(order[..k], order[k..], deps);
    NoRefsFromBehind(order, deps, k);
  }

  lemma {:induction false} LiveHeld<L>(order: seq<L>, deps: map<L, seq<L>>, roots: multiset<L>)
    requires forall l :: l in order ==> l in deps
    requires forall i :: 0 <= i < |order| ==> order[i] in roots + DepRefs(order[..i], deps)
    ensures Live(order, deps, roots) == order
  {
    if order == [] {
    } else {
      var tail := order[1..];
      assert order[..0] == [];
      var roots' := roots + multiset(deps[order[0]]);
      forall i | 0 <= i < |tail|
        ensures tail[i] in roots' + DepRefs(tail[..i], deps)
      {
        assert order[i + 1] == tail[i];
        assert order[..i + 1][1..] == tail[..i];
        assert roots + DepRefs(order[..i + 1], deps) == roots' + DepRefs(tail[..i], deps);
      }
      LiveHeld(tail, deps, roots');
    }
  }

  lemma TailBehind<L>(order: seq<L>, deps: map<L, seq<L>>)
    requires Distinct(order) && DepsBehind(order, deps) && order != []
    ensures Distinct(order[1..]) && DepsBehind(order[1..], deps)
  {
    var tail := order[1..];
    forall i, d | 0 <= i < |tail| && d in deps[tail[i]]
      ensures d in tail[i + 1..]
    {
      assert tail[i] == order[i + 1] && tail[i + 1..] == order[i + 2..];
    }
  }

  /** `Live` keeps exactly the libraries a root reaches through dependency lists. */
  lemma {:induction false} LiveIsReachable<L(!new)>(order: seq<L>, deps: map<L, seq<L>>, roots: multiset<L>, l: L)
    requires Distinct(order) && DepsBehind(order, deps)
    requires forall x :: x in roots ==> x in order
    ensures l in Live(order, deps, roots) <==> Reachable(l, deps, roots)
  {
    if l in Live(order, deps, roots) {
      var p := LivePath(order, deps, roots, l);
    }
    if Reachable(l, deps, roots) {
      var p :| HolderPath(p, deps, roots) && p[|p| - 1] == l;
      PathLive(order, deps, roots, p);
    }
  }

  lemma {:induction false} LivePath<L>(order: seq<L>, deps: map<L, seq<L>>, roots: multiset<L>, l: L)
    returns (p: seq<L>)
    requires forall x :: x in order ==> x in deps
    requires l in Live(order, deps, roots)
    ensures HolderPath(p, deps, roots) && p[|p| - 1] == l
  {
    var h := order[0];
    if roots[h] == 0 {
      p := LivePath(order[1..], deps, roots, l);
    } else if l == h {
      p := [h];
    } else {
      p := LivePath(order[1..], deps, roots + multiset(deps[h]), l);
      if p[0] !in roots {
        assert p[0] in deps[h];
        p := [h] + p;
      }
    }
  }

  lemma {:induction false} PathLive<L>(order: seq<L>, deps: map<L, seq<L>>, roots: multiset<L>, p: seq<L>)
    requires Distinct(order) && DepsBehind(order, deps)
    requires forall x :: x in roots ==> x in order
    requires HolderPath(p, deps, roots)
    ensures p[|p| - 1] in Live(order, deps, roots)
    decreases |p|
  {
    if |p| == 1 {
      RootsLive(order, deps, roots, p[0]);
    } else {
      var q := p[..|p| - 1];
      assert HolderPath(q, deps, roots);
      PathLive(order, deps, roots, q);
      assert p[|p| - 1] in deps[p[|p| - 2]];
      LiveClosed(order, deps, roots, q[|q| - 1], p[|p| - 1]);
    }
  }

  lemma {:induction false} RootsLive<L>(order: seq<L>, deps: map<L, seq<L>>, roots: multiset<L>, l: L)
    requires forall x :: x in order ==> x in deps
    requires l in order && l in roots
    ensures l in Live(order, deps, roots)
  {
    if l == order[0] {
    } else {
      RootsLive(order[1..], deps, roots, l);
      RootsLive(order[1..], deps, roots + multiset(deps[order[0]]), l);
    }
  }

  lemma {:induction false} LiveClosed<L>(order: seq<L>, deps: map<L, seq<L>>, roots: multiset<L>, l: L, d: L)
    requires Distinct(order) && DepsBehind(order, deps)
    requires l in Live(order, deps, roots) && d in deps[l]
    ensures d in Live(order, deps, roots)
  {
    TailBehind(order, deps);
    var h, tail := order[0], order[1..];
    if roots[h] == 0 {
      LiveClosed(tail, deps, roots, l, d);
    } else if l == h {
      RootsLive(tail, deps, roots + multiset(deps[h]), d);
    } else {
      LiveClosed(tail, deps, roots + multiset(deps[h]), l, d);
    }
  }

  /** The libraries whose dependency list holds `l`. */
  ghost function Holders<L>(order: seq<L>, deps: map<L, seq<L>>, l: L): set<L> {
    set x | x in order && x in deps && l in deps[x]
  }

  /** Without duplicates in the lists, `DepRefs` counts the lists that hold `l`. */
  lemma {:induction false} DepRefsCountsHolders<L>(order: seq<L>, deps: map<L, seq<L>>, l: L)
    requires Distinct(order)
    requires forall x :: x in order ==> x in deps && Distinct(deps[x])
    ensures DepRefs(order, deps)[l] == |Holders(order, deps, l)|
  {
    var holders := Holders(order, deps, l);
    if order == [] {
      assert holders == {};
    } else {
      var h, tail := order[0], order[1..];
      DepRefsCountsHolders(tail, deps, l);
      DistinctCount(deps[h], l);
      var tailHolders := Holders(tail, deps, l);
      assert h !in tailHolders;
      assert holders == if l in deps[h] then tailHolders + {h} else tailHolders;
    }
  }

  lemma {:induction false} DistinctCount<L>(s: seq<L>, l: L)
    requires Distinct(s)
    ensures multiset(s)[l] == if l in s then 1 else 0
  {
    if s == [] {
    } else {
      assert s == [s[0]] + s[1..];
      DistinctCount(s[1..], l);
    }
  }

  lemma {:induction false} DepRefsHas<L>(order: seq<L>, deps: map<L, seq<L>>, l: L, d: L)
    requires forall x :: x in order ==> x in deps
    requires l in order && d in deps[l]
    ensures d in DepRefs(order, deps)
  {
    if l == order[0] {
    } else {
      DepRefsHas(order[1..], deps, l, d);
    }
  }

  /** How often a library is held depends on the roots and on the newer libraries only. */
  lemma RefsFromFront<L>(order: seq<L>, deps: map<L, seq<L>>, k: nat)
    requires Distinct(order) && DepsBehind(order, deps) && k < |order|
    ensures forall l :: l in order[..k] ==> l in deps
    ensures DepRefs(order, deps)[order[k]] == DepRefs(order[..k], deps)[order[k]]
  {
    assert order == order[..k] + order[k..];
    DepRefsAppend(order[..k], order[k..], deps);
    NoRefsFromBehind(order, deps, k);
  }

  /** Emptying one dependency list gives up exactly the references it held. */
  lemma {:induction false} DepRefsMove<L>(order: seq<L>, deps: map<L, seq<L>>, l: L)
    requires Distinct(order) && (forall x :: x in order ==> x in deps)
    ensures DepRefs(order, deps[l := []])
         == if l in order then DepRefs(order, deps) - multiset(deps[l]) else DepRefs(order, deps)
    ensures l in order ==> multiset(deps[l]) <= DepRefs(order, deps)
  {
    hide DepRefs;
    if order == [] {
      assert order == [];
      DepRefsNone(deps);
      DepRefsNone(deps[l := []]);
    } else {
      var h, tail := order[0], order[1..];
      DepRefsUnfold(order, deps);
      DepRefsUnfold(order, deps[l := []]);
      assert forall x :: x in order <==> x == h || x in tail;
      DepRefsMove(tail, deps, l);
      if h == l {
        assert l !in tail;
        MoveFront(multiset(deps[l]), DepRefs(tail, deps));
      } else if l in tail {
        MoveBehind(multiset(deps[h]), DepRefs(tail, deps), multiset(deps[l]));
      }
    }
  }

  lemma DepRefsNone<L>(deps: map<L, seq<L>>)
    ensures DepRefs([], deps) == multiset{}
  {
  }

  lemma DepRefsUnfold<L>(order: seq<L>, deps: map<L, seq<L>>)
    requires order != [] && forall x :: x in order ==> x in deps
    ensures DepRefs(order, deps) == multiset(deps[order[0]]) + DepRefs(order[1..], deps)
  {
  }

  lemma MoveFront<L>(a: multiset<L>, b: multiset<L>)
    ensures multiset{} + b == a + b - a && a <= a + b
  {
  }

  lemma MoveBehind<L>(a: multiset<L>, b: multiset<L>, c: multiset<L>)
    requires c <= b
    ensures a + (b - c) == a + b - c && c <= a + b
  {
  }

  /** An entry that nobody holds and that holds nobody can be unlinked. */
  lemma DropEntry<L>(a: seq<L>, l: L, b: seq<L>, deps: map<L, seq<L>>)
    requires Distinct(a + [l] + b) && DepsBehind(a + [l] + b, deps)
    requires deps[l] == [] && l !in DepRefs(a + [l] + b, deps)
    ensures Distinct(a + b) && DepsBehind(a + b, deps)
    ensures DepRefs(a + b, deps) == DepRefs(a + [l] + b, deps)
  {
    var order, rest := a + [l] + b, a + b;
    forall i | 0 <= i < |rest|
      ensures rest[i] in deps && forall d :: d in deps[rest[i]] ==> d in rest[i + 1..]
    {
      var j := if i < |a| then i else i + 1;
      assert order[j] == rest[i] && order[j] in order;
      forall d | d in deps[rest[i]]
        ensures d in rest[i + 1..]
      {
        DepRefsHas(order, deps, order[j], d);
        assert d in order[j + 1..];
        var m :| j < m < |order| && order[m] == d;
        assert rest[if m < |a| then m else m - 1] == d;
      }
    }
    DropEntryDistinct(a, l, b);
    DropEntryRefs(a, l, b, deps);
  }

  lemma DropEntryDistinct<L>(a: seq<L>, l: L, b: seq<L>)
    requires Distinct(a + [l] + b)
    ensures Distinct(a + b)
  {
    var order, rest := a + [l] + b, a + b;
    forall i, j | 0 <= i < j < |rest|
      ensures rest[i] != rest[j]
    {
      assert rest[i] == order[if i < |a| then i else i + 1];
      assert rest[j] == order[if j < |a| then j else j + 1];
    }
  }

  lemma DropEntryRefs<L>(a: seq<L>, l: L, b: seq<L>, deps: map<L, seq<L>>)
    requires forall x :: x in a + [l] + b ==> x in deps
    requires deps[l] == []
    ensures forall x :: x in a + b ==> x in deps
    ensures DepRefs(a + b, deps) == DepRefs(a + [l] + b, deps)
  {
    assert forall x :: x in a + b ==> x in a + [l] + b;
    assert a + [l] + b == a + ([l] + b);
    assert ([l] + b)[1..] == b;
    DepRefsAppend(a, [l] + b, deps);
    DepRefsAppend(a, b, deps);
  }

  lemma MiddleHeld<L>(front: seq<L>, mid: seq<L>, back: seq<L>, deps: map<L, seq<L>>, roots: multiset<L>)
    requires Distinct(front + mid + back) && DepsBehind(front + mid + back, deps)
    requires forall x :: x in mid ==> x in roots + DepRefs(front + mid + back, deps)
    ensures forall x :: x in front || x in mid || x in back ==> x in deps
    ensures Live(mid, deps, roots + DepRefs(front, deps)) == mid
  {
    var order, roots' := front + mid + back, roots + DepRefs(front, deps);
    assert forall x :: x in front || x in mid || x in back ==> x in order;
    forall i | 0 <= i < |mid|
      ensures mid[i] in roots' + DepRefs(mid[..i], deps)
    {
      var k := |front| + i;
      assert order[k] == mid[i] && mid[i] in mid;
      HeldFromFront(order, deps, roots, k);
      assert order[..k] == front + mid[..i];
      DepRefsAppend(front, mid[..i], deps);
    }
    LiveHeld(mid, deps, roots');
  }

  /** Pruning drops the first unheld entry and goes on behind it. */
  lemma PruneAt<L>(front: seq<L>, mid: seq<L>, l: L, back: seq<L>, deps: map<L, seq<L>>, roots: multiset<L>)
    requires Distinct(front + mid + ([l] + back)) && DepsBehind(front + mid + ([l] + back), deps)
    requires forall x :: x in mid ==> x in roots + DepRefs(front + mid + ([l] + back), deps)
    requires l !in roots + DepRefs(front + mid + ([l] + back), deps)
    ensures forall x :: x in front || x in mid + ([l] + back) || x in back || x in front + mid ==> x in deps
    ensures Live(mid + ([l] + back), deps, roots + DepRefs(front, deps))
         == mid + Live(back, deps, roots + DepRefs(front + mid, deps))
  {
    MiddleHeld(front, mid, [l] + back, deps, roots);
    LiveAppend(mid, [l] + back, deps, roots + DepRefs(front, deps));
    DepRefsAppend(front, mid, deps);
    DepRefsAppend(front + mid, [l] + back, deps);
    var rest := roots + DepRefs(front + mid, deps);
    assert roots + DepRefs(front, deps) + DepRefs(mid, deps) == rest;
    assert l !in rest;
    assert ([l] + back)[1..] == back;
    assert Live([l] + back, deps, rest) == Live(back, deps, rest);
  }

  /** The dependencies of entry `k` are in the list, but not up to `k`. */
  lemma BehindList<L>(order: seq<L>, deps: map<L, seq<L>>, k: nat)
    requires Distinct(order) && DepsBehind(order, deps) && k < |order|
    ensures forall d :: d in deps[order[k]] ==> d in order && d !in order[..k + 1]
    ensures DepsBehind(order, deps[order[k] := []])
  {
    forall d | d in deps[order[k]]
      ensures d in order && d !in order[..k + 1]
    {
      assert d in order[k + 1..];
    }
  }

  lemma WithoutCount<T>(s: seq<T>, k: nat)
    requires k < |s|
    ensures multiset(Without(s, k)) + multiset{s[k]} == multiset(s)
  {
    assert Without(s, k) == s[..k] + s[k + 1..];
    assert s == s[..k] + [s[k]] + s[k + 1..];
  }

  lemma CancelOne<T>(a: multiset<T>, b: multiset<T>, x: T)
    requires a + multiset{x} == b + multiset{x}
    ensures a == b
  {
    assert a == a + multiset{x} - multiset{x};
    assert b == b + multiset{x} - multiset{x};
  }

  lemma WithoutIn<T>(s: seq<T>, k: nat, x: T)
    requires Distinct(s) && k < |s|
    ensures x in Without(s, k) <==> x in s && x != s[k]
  {
    var r := Without(s, k);
    if x in r {
      var i :| 0 <= i < |r| && r[i] == x;
      assert s[if i < k then i else i + 1] == x;
    }
    if x in s && x != s[k] {
      var i :| 0 <= i < |s| && s[i] == x;
      assert r[if i < k then i else i - 1] == x;
    }
  }

  /** The same pruning, told from the list in which the dropped entry has given up its own references. */
  lemma PruneDrop<L>(front: seq<L>, mid: seq<L>, l: L, back: seq<L>, deps: map<L, seq<L>>, roots: multiset<L>)
    requires Distinct(front + mid + ([l] + back)) && DepsBehind(front + mid + ([l] + back), deps)
    requires forall x :: x in mid ==> x in roots + DepRefs(front + mid + ([l] + back), deps)
    requires l !in roots + DepRefs(front + mid + ([l] + back), deps)
    ensures forall x :: x in front || x in mid + ([l] + back) || x in back || x in front + mid + [l] ==> x in deps
    ensures Live(mid + ([l] + back), deps, roots + DepRefs(front, deps))
         == mid + Live(back, deps[l := []], roots + DepRefs(front + mid + [l], deps[l := []]))
  {
    PruneAt(front, mid, l, back, deps, roots);
    EntryApart(front + mid, l, back);
    DepRefsGivenUp(front + mid, l, deps);
    LiveFrame(back, deps, deps[l := []], roots + DepRefs(front + mid, deps));
  }

  lemma EntryApart<L>(a: seq<L>, l: L, b: seq<L>)
    requires Distinct(a + ([l] + b))
    ensures l !in a && l !in b
  {
    var order := a + ([l] + b);
    assert order[|a|] == l;
    assert forall i :: 0 <= i < |a| ==> a[i] == order[i];
    assert forall i :: 0 <= i < |b| ==> b[i] == order[|a| + 1 + i];
  }

  lemma DepRefsGivenUp<L>(a: seq<L>, l: L, deps: map<L, seq<L>>)
    requires (forall x :: x in a ==> x in deps) && l !in a
    ensures forall x :: x in a + [l] ==> x in deps[l := []]
    ensures DepRefs(a + [l], deps[l := []]) == DepRefs(a, deps)
  {
    var after := deps[l := []];
    DepRefsFrame(a, deps, after);
    DepRefsAppend(a, [l], after);
    assert [l][1..] == [] && DepRefs([l], after) == multiset(after[l]) + DepRefs([], after);
  }

  lemma SamePrefix<T>(s: seq<T>, t: seq<T>, n: nat)
    requires n <= |s| && n <= |t| && s[..n] == t[..n]
    ensures forall i :: 0 <= i < n ==> s[i] == t[i]
    ensures forall i :: 0 <= i <= n ==> s[..i] == t[..i]
  {
    forall i | 0 <= i < n
      ensures s[i] == t[i]
    {
      assert s[..n][i] == t[..n][i];
    }
  }

  /** `s` without the element at `k`. */
  ghost function Without<T>(s: seq<T>, k: nat): (r: seq<T>)
    requires k < |s|
    ensures |r| == |s| - 1
    ensures forall i :: 0 <= i < |r| ==> r[i] == s[if i < k then i else i + 1]
  {
    var r := s[..k] + s[k + 1..];
    assert forall i :: 0 <= i < k ==> r[i] == s[i];
    assert forall i :: k <= i < |r| ==> r[i] == s[k + 1..][i - k];
    r
  }

  ghost predicate IsSuffix<T>(base: seq<T>, s: seq<T>) {
    |base| <= |s| && s[|s| - |base|..] == base
  }

  lemma SuffixTrans<T>(a: seq<T>, b: seq<T>, c: seq<T>)
    requires IsSuffix(a, b) && IsSuffix(b, c)
    ensures IsSuffix(a, c)
  {
    assert c[|c| - |a|..] == c[|c| - |b|..][|b| - |a|..];
  }

  lemma {:induction false} LiveNone<L>(order: seq<L>, deps: map<L, seq<L>>, roots: multiset<L>)
    requires forall l :: l in order ==> l in deps && l !in roots
    ensures Live(order, deps, roots) == []
  {
    if order == [] {
    } else {
      LiveNone(order[1..], deps, roots);
    }
  }

  lemma SplitApart<L>(a: seq<L>, b: seq<L>)
    requires Distinct(a + b)
    ensures forall l :: l in a ==> l !in b
    ensures forall l :: l in a || l in b ==> l in a + b
  {
    forall i, j | 0 <= i < |a| && 0 <= j < |b|
      ensures a[i] != b[j]
    {
      assert (a + b)[i] == a[i] && (a + b)[|a| + j] == b[j];
    }
  }

  /** Pruning with roots among the old libraries takes exactly the newcomers away. */
  lemma LiveRestores<L>(base: seq<L>, order: seq<L>, deps: map<L, seq<L>>, roots: multiset<L>)
    requires IsSuffix(base, order) && Distinct(order) && (forall l :: l in order ==> l in deps)
    requires forall l :: l in roots ==> l in base
    requires forall l :: l in base ==> l in deps
    requires Live(base, deps, roots) == base
    ensures Live(order, deps, roots) == base
  {
    hide Live, DepRefs;
    var added := order[..|order| - |base|];
    assert order == added + base;
    SplitApart(added, base);
    LiveNone(added, deps, roots);
    DepRefsNone(deps);
    LiveAppend(added, base, deps, roots);
    assert roots + DepRefs([], deps) == roots;
  }

  /** A new first entry adds its own list's references. */
  lemma DepRefsPush<L>(order: seq<L>, deps: map<L, seq<L>>, l: L, env: seq<L>)
    requires Distinct(order) && DepsBehind(order, deps) && l !in order
    requires forall d :: d in env ==> d in order
    ensures Distinct([l] + order) && DepsBehind([l] + order, deps[l := env])
    ensures DepRefs([l] + order, deps[l := env]) == multiset(env) + DepRefs(order, deps)
    ensures l !in DepRefs(order, deps)
  {
    var order', deps' := [l] + order, deps[l := env];
    assert order'[1..] == order;
    DepRefsFrame(order, deps, deps');
    forall i, d | 0 <= i < |order'| && d in deps'[order'[i]]
      ensures d in order'[i + 1..]
    {
      if i > 0 {
        assert order'[i] == order[i - 1] && order[i - 1] in order;
        assert order'[i + 1..] == order[i..];
      }
    }
    forall x | x in order
      ensures l !in deps[x]
    {
      var i :| 0 <= i < |order| && order[i] == x;
      assert forall d :: d in deps[order[i]] ==> d in order[i + 1..];
      assert forall d :: d in order[i + 1..] ==> d in order;
    }
    DepRefsWithin(order, deps, l);
  }

  /** Nothing is pruned behind `from` while everything there is held. */
  lemma PruneNone<L>(order: seq<L>, deps: map<L, seq<L>>, roots: multiset<L>, from: nat)
    requires from <= |order| && Distinct(order) && DepsBehind(order, deps)
    requires forall i :: from <= i < |order| ==> order[i] in roots + DepRefs(order, deps)
    ensures forall l :: l in order[..from] || l in order[from..] ==> l in order && l in deps
    ensures Live(order[from..], deps, roots + DepRefs(order[..from], deps)) == order[from..]
  {
    hide Distinct, DepRefs, Live;
    var front, back := order[..from], order[from..];
    assert order == front + back + [];
    forall x | x in back
      ensures x in roots + DepRefs(order, deps)
    {
      var i :| 0 <= i < |back| && back[i] == x;
      assert order[from + i] == x;
    }
    MiddleHeld(front, back, [], deps, roots);
  }
}
