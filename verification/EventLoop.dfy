// The select() event loop of src/evl/src.linux/event_loop_select.c: a registry
// of sockets in a tree, with the sets and the bound that select() needs kept in
// step, and the dispatch of what select() found while callbacks change it all.
module EventLoop {
  import opened Tree
  import opened Tcp

  // select_sk.  `have` is what a callback is still owed; the source leaves it
  // unset on allocation, here it starts out empty.
  class SelectSk {
    const sk: int
    var events: Mask
    var have: SkEvents

    constructor (sk: int, events: Mask)
      ensures this.sk == sk && this.events == events && have == NO_EVENTS
    {
      this.sk, this.events, have := sk, events, NO_EVENTS;
    }
  }

  type Entry = Item<SelectSk>

  type Registry = map<int, SelectSk>

  ghost function Keys(s: seq<Entry>): set<int> {
    set x <- s :: x.key
  }

  // The nodes of the tree are those of the registered sockets
  ghost predicate Holds(s: seq<Entry>, reg: Registry) {
    Keys(s) == reg.Keys && forall x <- s :: x.key in reg && reg[x.key] == x.data && x.data.sk == x.key
  }

  // What each registered socket is watched for
  ghost function Masks(reg: Registry): map<int, Mask>
    reads reg.Values`events
  {
    map k | k in reg :: reg[k].events
  }

  // nfds: one more than the largest socket, or none
  ghost predicate Bounded(m: map<int, Mask>, nfds: int) {
    (forall k <- m :: 0 <= k < nfds) && (if m == map[] then nfds == 0 else nfds - 1 in m)
  }

  // fds_r, fds_w and fds_x
  ghost predicate Indexed(m: map<int, Mask>, r: set<int>, w: set<int>, x: set<int>) {
    && r == (set k | k in m && m[k].readable)
    && w == (set k | k in m && m[k].writable)
    && x == m.Keys
  }

  // Sockets with something to deliver
  ghost function Due(reg: Registry): set<int>
    reads reg.Values`have
  {
    set k | k in reg && reg[k].have != NO_EVENTS
  }

  lemma KeysInserted(s: seq<Entry>, k: nat, item: Entry, s': seq<Entry>)
    requires k <= |s| && s' == s[..k] + [item] + s[k..]
    ensures Keys(s') == Keys(s) + {item.key}
    ensures forall x :: x in s' <==> x in s || x == item
  {
    assert s == s[..k] + s[k..];
  }

  lemma KeysRemoved(s: seq<Entry>, item: Entry, s': seq<Entry>)
    requires Sorted(s) && IsRemoval(s, item, s')
    ensures Keys(s') == Keys(s) - {item.key}
    ensures forall x <- s' :: x in s && x.key != item.key
  {
    var k :| 0 <= k < |s| && s[k] == item && s' == s[..k] + s[k + 1..];
    assert s == s[..k] + [item] + s[k + 1..];
    KeysOfRest(s[..k], item, s[k + 1..]);
  }

  lemma KeysOfRest(a: seq<Entry>, item: Entry, b: seq<Entry>)
    requires Sorted(a + [item] + b)
    ensures Keys(a + b) == Keys(a + [item] + b) - {item.key}
    ensures forall x <- a + b :: x in a + [item] + b && x.key != item.key
  {
    SortedParts(a + [item], b);
    SortedParts(a, [item]);
    assert item in [item] && item in a + [item];
  }

  lemma HoldsInserted(s: seq<Entry>, k: nat, item: Entry, s': seq<Entry>, reg: Registry)
    requires k <= |s| && s' == s[..k] + [item] + s[k..]
    requires Holds(s, reg) && item.key !in reg && item.data.sk == item.key
    ensures Holds(s', reg[item.key := item.data])
    ensures forall x :: x in s' <==> x in s || x == item
  {
    KeysInserted(s, k, item, s');
  }

  lemma HoldsRemoved(s: seq<Entry>, item: Entry, s': seq<Entry>, reg: Registry)
    requires Sorted(s) && IsRemoval(s, item, s') && Holds(s, reg)
    ensures Holds(s', reg - {item.key})
    ensures forall x <- s' :: x in s && x.key != item.key
  {
    KeysRemoved(s, item, s');
  }

  lemma Vacant(t: Shape<SelectSk>, sk: int, dupe: Item?<SelectSk>, reg: Registry)
    requires Holds(Items(t), reg) && sk !in reg
    requires dupe != null ==> dupe in Items(t) && dupe.key == sk
    ensures dupe == null
  {
  }

  lemma TreeEntered(t: Shape<SelectSk>, item: Entry, t': Shape<SelectSk>, reg: Registry)
    requires Holds(Items(t), reg) && item.key !in reg && item.data.sk == item.key
    requires IsInsertion(Items(t), item, Items(t'))
    ensures Holds(Items(t'), reg[item.key := item.data]) && Nodes(t') == Nodes(t) + {item}
  {
    hide Items, Holds;
    var k :| 0 <= k <= |Items(t)| && Items(t') == Items(t)[..k] + [item] + Items(t)[k..];
    HoldsInserted(Items(t), k, item, Items(t'), reg);
  }

  lemma Stored(t: Shape<SelectSk>, x: Entry)
    ensures x in Nodes(t) <==> x in Items(t)
  {
  }

  lemma TreeLeft(t: Shape<SelectSk>, x: Entry, t': Shape<SelectSk>, reg: Registry)
    requires Sorted(Items(t)) && IsRemoval(Items(t), x, Items(t')) && Holds(Items(t), reg)
    ensures Holds(Items(t'), reg - {x.key}) && Nodes(t') <= Nodes(t)
  {
    HoldsRemoved(Items(t), x, Items(t'), reg);
  }

  lemma IndexedSet(m: map<int, Mask>, r: set<int>, w: set<int>, x: set<int>, sk: int, e: Mask)
    requires Indexed(m, r, w, x)
    ensures Indexed(m[sk := e],
                    if e.readable then r + {sk} else r - {sk}, if e.writable then w + {sk} else w - {sk}, x + {sk})
  {
  }

  lemma IndexedCleared(m: map<int, Mask>, r: set<int>, w: set<int>, x: set<int>, sk: int)
    requires Indexed(m, r, w, x)
    ensures Indexed(m - {sk}, r - {sk}, w - {sk}, x - {sk})
    ensures sk in r <==> sk in m && m[sk].readable
    ensures sk in w <==> sk in m && m[sk].writable
  {
  }

  lemma BoundedCleared(m: map<int, Mask>, nfds: int, sk: int)
    requires Bounded(m, nfds) && sk in m
    ensures nfds != sk + 1 ==> Bounded(m - {sk}, nfds)
    ensures nfds == sk + 1 ==> forall k <- m - {sk} :: 0 <= k < sk
  {
    if nfds != sk + 1 {
      assert nfds - 1 in m - {sk};
    }
  }

  lemma BoundedSame(m: map<int, Mask>, nfds: int, sk: int, e: Mask)
    requires Bounded(m, nfds) && sk in m
    ensures Bounded(m[sk := e], nfds)
  {
  }

  lemma Ascending(s: seq<Entry>, i: nat, reg: Registry)
    requires i < |s| && Sorted(s) && Holds(s, reg)
    ensures s[i].data.sk == s[i].key && s[i].key in reg && reg[s[i].key] == s[i].data
    ensures i > 0 ==> s[i - 1].key < s[i].key
  {
    assert s[i] in s;
  }

  lemma HighestEarly(s: seq<Entry>, i: nat, reg: Registry, m: map<int, Mask>, sk: int)
    requires Holds(s, reg) && m.Keys == reg.Keys && forall k <- m :: 0 <= k < sk
    requires i < |s| && s[i].key == sk - 1
    ensures Bounded(m, sk)
  {
    assert s[i] in s;
  }

  lemma HighestLast(s: seq<Entry>, reg: Registry, m: map<int, Mask>, maxSk: int)
    requires Holds(s, reg) && m.Keys == reg.Keys && Sorted(s) && forall k <- m :: 0 <= k
    requires maxSk == if s == [] then -1 else s[|s| - 1].key
    ensures Bounded(m, maxSk + 1)
  {
    if s == [] {
      assert m.Keys == {};
    } else {
      assert s[|s| - 1] in s;
      forall k <- m ensures k <= maxSk {
        var x :| x in s && x.key == k;
      }
    }
  }

  lemma FirstGone(t: Shape<SelectSk>, x: Entry, t': Shape<SelectSk>)
    requires Sorted(Items(t)) && IsRemoval(Items(t), x, Items(t')) && x == At(Items(t), 0)
    ensures Items(t) == [x] + Items(t') && Nodes(t') <= Nodes(t)
  {
  }

  // What a callback may ask of the loop that called it
  datatype Action =
    | Add(sk: int, events: Mask)
    | Mod(sk: int, events: Mask)
    | Del(sk: int)
    | Discard

  // What is to be watched afterwards.  What the source asserts against is not done.
  function Applied(m: map<int, Mask>, a: Action): map<int, Mask> {
    match a
    case Add(sk, events) => if 0 <= sk && sk !in m then m[sk := events] else m
    case Mod(sk, events) => if sk in m then m[sk := events] else m
    case Del(sk) => m - {sk}
    case Discard => m
  }

  function AppliedAll(m: map<int, Mask>, s: seq<Action>): map<int, Mask> {
    if s == [] then m else Applied(AppliedAll(m, s[..|s| - 1]), s[|s| - 1])
  }

  // FD_ISSET of the three sets
  function Got(k: int, r: set<int>, w: set<int>, x: set<int>): SkEvents {
    SkEvents(k in r, k in w, k in x)
  }

  // The entries noted so far, and those of them that got something
  ghost predicate Noted(s: seq<Entry>, r: set<int>, w: set<int>, x: set<int>, seen: set<int>)
    reads (set y <- s :: y.data)`have
  {
    && (forall y <- s :: y.data.have == Got(y.key, r, w, x))
    && seen == (set k | k in Keys(s) && Got(k, r, w, x) != NO_EVENTS)
  }

  lemma NotedNone(s: seq<Entry>, r: set<int>, w: set<int>, x: set<int>)
    ensures Noted(s[..0], r, w, x, {})
  {
  }

  lemma NotedApart(s: seq<Entry>, i: nat, reg: Registry)
    requires i < |s| && Sorted(s) && Holds(s, reg)
    ensures s[i].data !in (set y <- s[..i] :: y.data)
  {
    forall y <- s[..i] ensures y.data != s[i].data {
      var j :| 0 <= j < i && s[j] == y;
      assert y in s && s[i] in s;
    }
  }

  lemma NotedNext(s: seq<Entry>, i: nat, r: set<int>, w: set<int>, x: set<int>, seen: set<int>)
    requires i < |s| && Sorted(s) && Noted(s[..i], r, w, x, seen)
    requires s[i].data.have == Got(s[i].key, r, w, x)
    ensures s[i].key !in seen
    ensures Noted(s[..i + 1], r, w, x, if s[i].data.have != NO_EVENTS then seen + {s[i].key} else seen)
  {
    assert s[..i + 1] == s[..i] + [s[i]];
    assert Keys(s[..i + 1]) == Keys(s[..i]) + {s[i].key};
    forall y <- s[..i] ensures y.key < s[i].key {
      var j :| 0 <= j < i && s[j] == y;
    }
  }

  lemma NotedAll(s: seq<Entry>, reg: Registry, r: set<int>, w: set<int>, x: set<int>, seen: set<int>)
    requires Holds(s, reg) && Noted(s[..|s|], r, w, x, seen)
    ensures forall k <- reg :: reg[k].have == Got(k, r, w, x)
    ensures seen == Due(reg)
  {
    assert s[..|s|] == s;
    forall k <- reg ensures reg[k].have == Got(k, r, w, x) {
      assert k in Keys(s);
      var y :| y in s && y.key == k;
    }
  }

  lemma MaskIs(reg: Registry, k: int)
    ensures if k in reg then k in Masks(reg) && Masks(reg)[k] == reg[k].events else k !in Masks(reg)
  {
  }

  lemma DueIs(reg: Registry, k: int)
    ensures k in Due(reg) <==> k in reg && reg[k].have != NO_EVENTS
  {
  }

  lemma NothingDue(s: seq<Entry>, reg: Registry)
    requires Holds(s, reg)
    requires forall j :: 0 <= j < |s| ==> s[j].key !in Due(reg)
    ensures Due(reg) == {}
  {
    forall k <- reg ensures k !in Due(reg) {
      assert k in Keys(s);
      var y :| y in s && y.key == k;
    }
  }

  lemma FewerDue(a: set<int>, b: set<int>, k: int)
    requires k in b && a <= b - {k}
    ensures |a| < |b|
  {
    assert b * a == a && k in b - a;
    assert |b - a| == |b| - |a|;
  }

  // A callback, and what it was called with
  datatype Delivery = Delivery(to: SelectSk, events: SkEvents)

  ghost function Told(log: seq<Delivery>): set<SelectSk> {
    set d <- log :: d.to
  }

  // Deliveries, to entries that were there at the start, of what was owed to
  // them then, to none of them twice
  ghost predicate Sound(start: Registry, owed: map<int, SkEvents>, log: seq<Delivery>) {
    && owed.Keys == start.Keys
    && (forall d <- log :: d.to.sk in start && start[d.to.sk] == d.to && d.events == owed[d.to.sk] != NO_EVENTS)
    && (forall i, j :: 0 <= i < j < |log| ==> log[i].to != log[j].to)
  }

  // In the midst of the dispatch: an entry that is owed something still is owed
  // just that, and one that was and is no longer has been called.
  ghost predicate Halfway(reg: Registry, start: Registry, owed: map<int, SkEvents>, log: seq<Delivery>)
    reads reg.Values`have
  {
    && Sound(start, owed, log)
    && (forall k <- reg :: reg[k].have != NO_EVENTS ==>
          k in start && start[k] == reg[k] && owed[k] == reg[k].have && reg[k] !in Told(log))
    && (forall k <- reg :: k in start && start[k] == reg[k] && owed[k] != NO_EVENTS && reg[k].have == NO_EVENTS ==>
          reg[k] in Told(log))
  }

  lemma HalfwayIsSound(reg: Registry, start: Registry, owed: map<int, SkEvents>, log: seq<Delivery>)
    requires Halfway(reg, start, owed, log)
    ensures Sound(start, owed, log)
    ensures forall k <- reg :: k in start && reg[k] == start[k] && owed[k] != NO_EVENTS && k !in Due(reg) ==>
              reg[k] in Told(log)
  {
  }

  lemma BeginsHalfway(reg: Registry, owed: map<int, SkEvents>)
    requires owed.Keys == reg.Keys && forall k <- reg :: reg[k].have == owed[k]
    ensures Halfway(reg, reg, owed, [])
    ensures (exists k :: k in owed && owed[k] != NO_EVENTS) ==> |Due(reg)| > 0
  {
    forall k <- owed | owed[k] != NO_EVENTS ensures k in Due(reg) {
    }
  }

  // What is ready when select() looks
  datatype Ready = Ready(r: set<int>, w: set<int>, x: set<int>, ok: bool)

  // What a socket is to be told: that of its mask which is ready, and errors always
  function Occurred(at: Ready, k: int, m: Mask): SkEvents {
    SkEvents(m.readable && k in at.r, m.writable && k in at.w, k in at.x)
  }

  function Owed(m: map<int, Mask>, at: Ready): map<int, SkEvents> {
    map k | k in m :: Occurred(at, k, m[k])
  }

  // select(): of the sockets below nfds in each set, those that are ready
  method Select(nfds: int, r: set<int>, w: set<int>, x: set<int>, at: Ready)
    returns (n: int, r': set<int>, w': set<int>, x': set<int>)
    ensures n < 0 <==> !at.ok
    ensures at.ok ==> n == |r'| + |w'| + |x'|
    ensures r' == (set k | k in r && k < nfds && k in at.r)
    ensures w' == (set k | k in w && k < nfds && k in at.w)
    ensures x' == (set k | k in x && k < nfds && k in at.x)
  {
    r' := set k | k in r && k < nfds && k in at.r;
    w' := set k | k in w && k < nfds && k in at.w;
    x' := set k | k in x && k < nfds && k in at.x;
    n := if at.ok then |r'| + |w'| + |x'| else -1;
  }

  lemma NothingWatched(m: map<int, Mask>, r: set<int>, w: set<int>, x: set<int>)
    requires Bounded(m, 0) && Indexed(m, r, w, x)
    ensures r == w == x == {}
  {
  }

  // The sets and the bound make select() look at just what is watched.
  lemma SelectedIsOwed(m: map<int, Mask>, nfds: int, r: set<int>, w: set<int>, x: set<int>, at: Ready,
                       r': set<int>, w': set<int>, x': set<int>)
    requires Bounded(m, nfds) && Indexed(m, r, w, x)
    requires r' == (set k | k in r && k < nfds && k in at.r)
    requires w' == (set k | k in w && k < nfds && k in at.w)
    requires x' == (set k | k in x && k < nfds && k in at.x)
    ensures forall k <- m :: Got(k, r', w', x') == Owed(m, at)[k]
    ensures |r'| + |w'| + |x'| == 0 <==> forall k :: k in Owed(m, at) ==> Owed(m, at)[k] == NO_EVENTS
  {
  }

  // Some socket is removed.
  predicate Removes(actions: seq<Action>) {
    exists a <- actions :: a.Del?
  }

  ghost predicate MayRemove(program: nat -> seq<Action>) {
    exists n :: Removes(program(n))
  }

  lemma MayRemoveAt(program: nat -> seq<Action>, n: nat)
    requires Removes(program(n))
    ensures MayRemove(program)
  {
  }

  // The loop is discarded.
  predicate Discards(actions: seq<Action>) {
    Action.Discard in actions
  }

  // None of the first callbacks discards the loop, but for the last one if the
  // loop is dead.
  ghost predicate Fate(program: nat -> seq<Action>, calls: nat, dead: bool) {
    && (forall n: nat :: n + 1 < calls ==> !Discards(program(n)))
    && (if dead then calls > 0 && Discards(program(calls - 1)) else calls > 0 ==> !Discards(program(calls - 1)))
  }

  lemma FateNext(program: nat -> seq<Action>, calls: nat, dead: bool)
    requires Fate(program, calls, false) && (dead <==> Discards(program(calls)))
    ensures Fate(program, calls + 1, dead)
  {
  }

  lemma FateNone(program: nat -> seq<Action>)
    ensures Fate(program, 0, false)
  {
  }

  // What is to be watched after some callbacks
  function Ran(m: map<int, Mask>, program: nat -> seq<Action>, calls: nat): map<int, Mask> {
    if calls == 0 then m else AppliedAll(Ran(m, program, calls - 1), program(calls - 1))
  }

  lemma RanOneMore(m: map<int, Mask>, program: nat -> seq<Action>, calls: nat)
    ensures Ran(m, program, calls + 1) == AppliedAll(Ran(m, program, calls), program(calls))
  {
  }

  class EvlSelect {
    var nfds: int
    var fdsR: set<int>
    var fdsW: set<int>
    var fdsX: set<int>
    const sockets: Map<SelectSk>
    const fixed: bool       // not in the source: run the corrected map_del
    var spoiled: bool       // nor is this: map_del as written has met two children
    var mapTouched: bool
    var inCallback: bool    // this and the next are left unset by the source
    var dead: bool
    ghost var freed: bool
    ghost var reg: Registry
    ghost var Repr: set<object>

    // The tree holds the registered sockets.  Of its links only the child links
    // are meant; what goes on from a node also needs sockets.Parents().
    ghost predicate Shaped()
      reads this`reg, this`Repr, Repr
    {
      && this !in Repr && sockets in Repr
      && Nodes(sockets.shape) <= Repr && reg.Values <= Repr
      && (forall k <- reg :: reg[k].sk == k)
      && sockets.Valid() && Holds(sockets.Contents(), reg)
    }

    // The sets and nfds agree with it.
    ghost predicate Agreed()
      reads this`reg, this`Repr, this`freed, this`nfds, this`fdsR, this`fdsW, this`fdsX, Repr
    {
      Shaped() && !freed && Bounded(Masks(reg), nfds) && Indexed(Masks(reg), fdsR, fdsW, fdsX)
    }

    ghost predicate Valid()
      reads this`spoiled, this`reg, this`Repr, this`freed, this`nfds, this`fdsR, this`fdsW, this`fdsX, Repr
    {
      Agreed() && sockets.Parents() && !spoiled
    }

    // new_event_loop_select
    constructor (fixed: bool)
      ensures Valid() && fresh(Repr) && reg == map[] && sockets.shape == Leaf
      ensures !dead && !inCallback && this.fixed == fixed
    {
      this.fixed, spoiled := fixed, false;
      nfds, fdsR, fdsW, fdsX := 0, {}, {}, {};
      sockets := new Map();
      mapTouched, inCallback, dead, freed, reg := false, false, false, false, map[];
      new;
      Repr := {sockets};
    }

    twostate predicate Stayed(k: int)
      requires k in reg
      reads this, reg[k]
    {
      k in old(reg) && reg[k] == old(reg)[k] && reg[k].have == old(reg[k].have)
    }

    twostate predicate Came(k: int)
      requires k in reg
      reads this, reg[k]
    {
      fresh(reg[k]) && reg[k].have == NO_EVENTS
    }

    // Nothing is lost or gained, and nothing but `have` and `events` changes,
    // unless map_touched is set; and what is new owes nothing to its callback.
    twostate predicate Kept()
      reads this, sockets, reg.Values
    {
      && (old(mapTouched) ==> mapTouched)
      && (!mapTouched ==> sockets.shape == old(sockets.shape) && reg == old(reg) && forall k <- reg :: Stayed(k))
      && (forall k <- reg :: Stayed(k) || Came(k))
      && inCallback == old(inCallback) && (old(dead) ==> dead)
    }

    // find_select_sk
    method FindSelectSk(sk: int) returns (x: Item?<SelectSk>)
      requires Agreed()
      ensures Agreed() && (old(sockets.Parents()) ==> sockets.Parents())
      ensures if sk in reg then x != null && x in sockets.Contents() && x.key == sk && x.data == reg[sk] else x == null
    {
      x := sockets.FindItem(sk);
    }

    // map_add
    method Enter(ssk: SelectSk) returns (ghost item: Entry)
      requires Shaped() && ssk.sk !in reg && ssk !in Repr
      modifies this`reg, this`Repr, Repr
      ensures Shaped() && fresh(Repr - old(Repr) - {ssk}) && old(Repr) <= Repr
      ensures reg == old(reg)[ssk.sk := ssk]
      ensures Masks(reg) == old(Masks(reg))[ssk.sk := ssk.events]
      ensures forall k <- old(reg) :: reg[k].have == old(reg[k].have)
      ensures fresh(item) && item in Repr && item.key == ssk.sk
      ensures sockets.shape == Inserted(old(sockets.shape), item)
      ensures old(sockets.Parents()) ==> sockets.Parents()
    {
      hide Sorted, Items, Nodes, Keys, Linked, Parented, Holds, Inserted, Map.Parents, Map.Valid;
      var x := new Item(ssk.sk, ssk);
      item := x;
      ghost var before := sockets.shape;
      var dupe := sockets.Add(x);
      Vacant(before, ssk.sk, dupe, reg);
      assert dupe == null;
      TreeEntered(before, item, sockets.shape, reg);
      reg := reg[ssk.sk := ssk];
      Repr := Repr + {ssk, item};
    }

    // The index of a socket that was not watched
    method Watch(sk: int, events: Mask, ghost m: map<int, Mask>)
      requires Bounded(m, nfds) && Indexed(m, fdsR, fdsW, fdsX) && 0 <= sk && sk !in m
      modifies this`nfds, this`fdsR, this`fdsW, this`fdsX
      ensures Bounded(m[sk := events], nfds) && Indexed(m[sk := events], fdsR, fdsW, fdsX)
    {
      IndexedSet(m, fdsR, fdsW, fdsX, sk, events);
      IndexedCleared(m, fdsR, fdsW, fdsX, sk);
      hide Indexed;
      assert fdsR - {sk} == fdsR && fdsW - {sk} == fdsW;
      if events.readable {
        fdsR := fdsR + {sk};
      }
      if events.writable {
        fdsW := fdsW + {sk};
      }
      fdsX := fdsX + {sk};
      if sk >= nfds {
        nfds := sk + 1;
      }
    }

    // of one that was,
    method Rewatch(sk: int, was: Mask, events: Mask, ghost m: map<int, Mask>)
      requires Indexed(m, fdsR, fdsW, fdsX) && sk in m && m[sk] == was
      modifies this`fdsR, this`fdsW
      ensures Indexed(m[sk := events], fdsR, fdsW, fdsX)
    {
      IndexedSet(m, fdsR, fdsW, fdsX, sk, events);
      IndexedCleared(m, fdsR, fdsW, fdsX, sk);
      assert fdsX + {sk} == fdsX;
      assert sk in fdsR ==> fdsR + {sk} == fdsR;
      assert sk !in fdsR ==> fdsR - {sk} == fdsR;
      assert sk in fdsW ==> fdsW + {sk} == fdsW;
      assert sk !in fdsW ==> fdsW - {sk} == fdsW;
      hide Indexed;
      if events.readable && !was.readable {
        fdsR := fdsR + {sk};
      }
      if !events.readable && was.readable {
        fdsR := fdsR - {sk};
      }
      if events.writable && !was.writable {
        fdsW := fdsW + {sk};
      }
      if !events.writable && was.writable {
        fdsW := fdsW - {sk};
      }
    }

    // and of one that is no longer
    method Unwatch(sk: int, was: Mask, ghost m: map<int, Mask>)
      requires Indexed(m, fdsR, fdsW, fdsX) && sk in m && m[sk] == was
      modifies this`fdsR, this`fdsW, this`fdsX
      ensures Indexed(m - {sk}, fdsR, fdsW, fdsX)
    {
      IndexedCleared(m, fdsR, fdsW, fdsX, sk);
      hide Indexed;
      assert sk !in fdsR ==> fdsR - {sk} == fdsR;
      assert sk !in fdsW ==> fdsW - {sk} == fdsW;
      if was.readable {
        fdsR := fdsR - {sk};
      }
      if was.writable {
        fdsW := fdsW - {sk};
      }
      fdsX := fdsX - {sk};
    }

    lemma Apart()
      requires Shaped()
      ensures this !in Repr && sockets in Repr && Nodes(sockets.shape) <= Repr
    {
    }

    lemma Inside()
      requires Agreed()
      ensures reg.Values <= Repr && forall k <- reg :: reg[k].sk == k
    {
    }

    // evl_select_add_socket
    method AddSocket(sk: int, events: Mask) returns (ghost item: Entry)
      requires Agreed() && 0 <= sk && sk !in reg
      modifies this, Repr
      ensures Agreed() && fresh(Repr - old(Repr)) && mapTouched
      ensures Masks(reg) == old(Masks(reg))[sk := events]
      ensures Kept() && dead == old(dead) && spoiled == old(spoiled)
      ensures fresh(item) && item.key == sk && sockets.shape == Inserted(old(sockets.shape), item)
      ensures old(sockets.Parents()) ==> sockets.Parents()
    {
      hide Sorted, Items, Nodes, Keys, Linked, Parented, Holds, Indexed, Bounded, Masks, Inserted;
      hide Map.Parents, Map.Valid, EvlSelect.Shaped;
      MaskIs(reg, sk);
      Apart();
      var ssk := new SelectSk(sk, events);
      item := Enter(ssk);
      Index(sk, events, old(Masks(reg)));
    }

    // add_socket, once the entry is in the tree
    method Index(sk: int, events: Mask, ghost m: map<int, Mask>)
      requires Shaped() && !freed && Masks(reg) == m[sk := events]
      requires Bounded(m, nfds) && Indexed(m, fdsR, fdsW, fdsX) && 0 <= sk && sk !in m
      modifies this`nfds, this`fdsR, this`fdsW, this`fdsX, this`mapTouched
      ensures Agreed() && Masks(reg) == m[sk := events] && mapTouched
      ensures sockets.Parents() == old(sockets.Parents())
    {
      hide Sorted, Items, Nodes, Keys, Linked, Parented, Holds, Indexed, Bounded, Map.Parents, Map.Valid;
      Watch(sk, events, m);
      mapTouched := true;
    }

    // evl_select_mod_socket
    method ModSocket(sk: int, events: Mask)
      requires Agreed() && sk in reg
      modifies this, Repr
      ensures Agreed() && Repr == old(Repr) && mapTouched == old(mapTouched)
      ensures Masks(reg) == old(Masks(reg))[sk := events]
      ensures Kept() && dead == old(dead) && spoiled == old(spoiled)
      ensures old(sockets.Parents()) ==> sockets.Parents()
    {
      hide Sorted, Items, Nodes, Keys, Linked, Parented, Holds, Indexed, Bounded;
      var x := FindSelectSk(sk);
      var ssk := x.data;
      Rewatch(sk, ssk.events, events, Masks(reg));
      BoundedSame(Masks(reg), nfds, sk, events);
      assert forall k <- reg :: k != sk ==> reg[k] != ssk;
      ssk.events := events;
      assert Masks(reg) == old(Masks(reg))[sk := events];
    }

    // map_del
    method Leave(x: Entry)
      requires Shaped() && x in sockets.Contents()
      modifies this`reg, sockets, x, Nodes(sockets.shape)`l, Nodes(sockets.shape)`r, Kin(x)`p
      ensures Shaped() && sockets.shape == Deleted(old(sockets.shape), x.key)
      ensures reg == old(reg) - {x.key}
      ensures Masks(reg) == old(Masks(reg)) - {x.key}
      ensures forall k <- reg :: reg[k].have == old(reg[k].have)
      ensures old(sockets.Parents()) ==>
                (sockets.Parents() <==> fixed || old(x.l == null || x.r == null))
      ensures !fixed && old(x.l != null && x.r != null && x.l.r == null) ==> old(x.l).p == old(x.l)
      ensures !fixed && old(x.l != null && x.r != null) ==> Precedes(old(sockets.Contents()), old(x.l).p, x)
    {
      hide Sorted, Items, Nodes, Keys, Linked, Parented, Holds, Deleted, IsRemoval, Precedes, Map.Parents;
      ghost var before := sockets.shape;
      assert x in Nodes(before) by { Stored(before, x); }
      if fixed {
        var gone := sockets.DelCorrected(x);
      } else {
        var gone := sockets.Del(x);
      }
      TreeLeft(before, x, sockets.shape, reg);
      reg := reg - {x.key};
    }

    // The largest registered socket, or -1.  The walk ends early at sk - 1.
    method Recount(sk: int) returns (maxSk: int)
      requires Shaped() && sockets.Parents() && forall k <- Masks(reg) :: 0 <= k < sk
      ensures Shaped() && sockets.Parents() && Bounded(Masks(reg), maxSk + 1)
    {
      hide Sorted, Items, Nodes, Keys, Linked, Parented, Holds, Bounded;
      ghost var s := sockets.Contents();
      maxSk := -1;
      ghost var i := 0;
      var mi := sockets.Walk(null);
      while mi != null
        invariant Shaped() && sockets.Parents() && sockets.Contents() == s && i <= |s| && mi == At(s, i)
        invariant if i == 0 then maxSk == -1 else maxSk == s[i - 1].key
        decreases |s| - i
      {
        Ascending(s, i, reg);
        assert s[i].key in Masks(reg);
        var foo := mi.data;
        if foo.sk >= maxSk {
          maxSk := foo.sk;
          if maxSk == sk - 1 {
            HighestEarly(s, i, reg, Masks(reg), sk);
            return;
          }
        }
        i := i + 1;
        mi := sockets.Walk(mi);
      }
      HighestLast(s, reg, Masks(reg), maxSk);
    }

    // nfds after the removal of a socket
    method Renumber(sk: int)
      requires Shaped() && (nfds == sk + 1 ==> sockets.Parents())
      requires if nfds == sk + 1 then forall k <- Masks(reg) :: 0 <= k < sk else Bounded(Masks(reg), nfds)
      modifies this`nfds
      ensures Shaped() && Bounded(Masks(reg), nfds)
      ensures sockets.Parents() == old(sockets.Parents())
    {
      hide Sorted, Items, Nodes, Keys, Linked, Parented, Holds, Bounded, Map.Parents, Map.Valid;
      if nfds == sk + 1 {
        var maxSk := Recount(sk);
        nfds := maxSk + 1;
      }
    }

    // del_socket, but for nfds
    method Forget(x: Entry)
      requires Shaped() && Indexed(Masks(reg), fdsR, fdsW, fdsX)
      requires x in sockets.Contents() && x.key in reg && reg[x.key] == x.data
      modifies this`fdsR, this`fdsW, this`fdsX, this`reg
      modifies sockets, x, Nodes(sockets.shape)`l, Nodes(sockets.shape)`r, Kin(x)`p
      ensures Shaped() && Indexed(Masks(reg), fdsR, fdsW, fdsX)
      ensures sockets.shape == Deleted(old(sockets.shape), x.key)
      ensures reg == old(reg) - {x.key} && Masks(reg) == old(Masks(reg)) - {x.key}
      ensures forall k <- reg :: reg[k].have == old(reg[k].have)
      ensures old(sockets.Parents()) ==>
                (sockets.Parents() <==> fixed || old(x.l == null || x.r == null))
      ensures !fixed && old(x.l != null && x.r != null && x.l.r == null) ==> old(x.l).p == old(x.l)
      ensures !fixed && old(x.l != null && x.r != null) ==> Precedes(old(sockets.Contents()), old(x.l).p, x)
    {
      hide Sorted, Items, Nodes, Keys, Linked, Parented, Holds, Indexed, Masks, Deleted, Precedes, Map.Parents;
      MaskIs(reg, x.key);
      Unwatch(x.key, x.data.events, Masks(reg));
      Leave(x);
    }

    // del_socket, once the entry is found
    method Remove(x: Entry)
      requires Agreed() && x in sockets.Contents() && x.key in reg && reg[x.key] == x.data
      requires nfds == x.key + 1 ==> sockets.Parents()
      modifies this`fdsR, this`fdsW, this`fdsX, this`reg, this`nfds, this`spoiled, this`mapTouched
      modifies sockets, x, Nodes(sockets.shape)`l, Nodes(sockets.shape)`r, Kin(x)`p
      ensures Agreed() && sockets.shape == Deleted(old(sockets.shape), x.key) && mapTouched
      ensures spoiled == (old(spoiled) || (!fixed && old(x.l != null && x.r != null)))
      ensures reg == old(reg) - {x.key} && Masks(reg) == old(Masks(reg)) - {x.key}
      ensures forall k <- reg :: reg[k].have == old(reg[k].have)
      ensures old(sockets.Parents()) ==>
                (sockets.Parents() <==> fixed || old(x.l == null || x.r == null))
      ensures !fixed && old(x.l != null && x.r != null && x.l.r == null) ==> old(x.l).p == old(x.l)
      ensures !fixed && old(x.l != null && x.r != null) ==> Precedes(old(sockets.Contents()), old(x.l).p, x)
    {
      hide Sorted, Items, Nodes, Keys, Linked, Parented, Holds, Indexed, Bounded, Masks, Deleted, Precedes, Kin;
      hide Map.Parents, Map.Valid;
      MaskIs(reg, x.key);
      BoundedCleared(Masks(reg), nfds, x.key);
      AroundEntry(x);
      spoiled, mapTouched := spoiled || (!fixed && x.l != null && x.r != null), true;
      Forget(x);
      Renumber(x.key);
    }

    // evl_select_del_socket.  The registry is right afterwards; parent links are
    // if and only if the entry did not have two children, or map_del is fixed.
    // The walk for nfds needs them, and then has them: the largest entry has no
    // right child.
    method DelSocket(sk: int) returns (ghost x: Entry)
      requires Agreed() && sk in reg && (nfds == sk + 1 ==> sockets.Parents())
      modifies this, Repr
      ensures Agreed() && Repr == old(Repr) && mapTouched
      ensures Masks(reg) == old(Masks(reg)) - {sk}
      ensures Kept() && dead == old(dead)
      ensures x in old(Repr) && x in old(sockets.Contents()) && x.key == sk
      ensures sockets.shape == Deleted(old(sockets.shape), sk)
      ensures old(sockets.Parents()) ==>
                (sockets.Parents() <==> fixed || old(x.l == null || x.r == null))
      ensures spoiled == (old(spoiled) || (!fixed && old(x.l != null && x.r != null)))
      ensures old(Valid()) ==> (Valid() <==> fixed || old(x.l == null || x.r == null))
      ensures !fixed && old(x.l != null && x.r != null && x.l.r == null) ==> old(x.l).p == old(x.l)
      ensures !fixed && old(x.l != null && x.r != null) ==> Precedes(old(sockets.Contents()), old(x.l).p, x)
    {
      hide Sorted, Items, Nodes, Keys, Linked, Parented, Holds, Indexed, Bounded, Masks, Deleted, Precedes, Kin;
      hide Map.Parents, Map.Valid, EvlSelect.Agreed;
      var item := FindSelectSk(sk);
      x := item;
      AroundEntry(item);
      Remove(item);
    }

    lemma Rooted()
      requires Shaped()
      ensures sockets.root == Root(sockets.shape) && Linked(sockets.shape)
    {
    }

    lemma AroundEntry(x: Entry)
      requires Agreed() && x in sockets.Contents()
      ensures nfds == x.key + 1 ==> x.r == null
      ensures x in Repr && Kin(x) <= Repr && sockets in Repr && Nodes(sockets.shape) <= Repr
    {
      sockets.ChildrenStored(x);
      Stored(sockets.shape, x);
      assert x.r != null ==> x.r.key in Masks(reg);
    }

    // evl_select_dispose: every node once, in order, always the first one; no
    // parent link is ever looked at
    method Dispose() returns (ghost gone: seq<Entry>)
      requires Shaped()
      modifies this, Repr
      ensures gone == old(sockets.Contents()) && sockets.Contents() == [] && freed
      ensures dead == old(dead) && inCallback == old(inCallback) && spoiled == old(spoiled) && Repr == old(Repr)
      ensures old(sockets.Parents()) ==> sockets.Parents()
    {
      hide Sorted, Items, Nodes, Keys, Linked, Parented, Holds, IsRemoval;
      gone := [];
      ghost var s0 := sockets.Contents();
      var mi := sockets.Walk(null);
      while mi != null
        invariant sockets.Valid() && Nodes(sockets.shape) <= old(Repr)
        invariant old(sockets.Parents()) ==> sockets.Parents()
        invariant s0 == gone + sockets.Contents()
        invariant mi == At(sockets.Contents(), 0) && (mi != null ==> mi.l == null)
        invariant reg == old(reg) && dead == old(dead) && inCallback == old(inCallback)
        invariant spoiled == old(spoiled) && Repr == old(Repr)
        decreases |sockets.Contents()|
      {
        ghost var before := sockets.shape;
        Stored(before, mi);
        sockets.ChildrenStored(mi);
        mi := sockets.Del(mi);
        FirstGone(before, mi, sockets.shape);
        gone := gone + [mi];
        mi := sockets.Walk(null);
      }
      reg := map[];
      freed := true;
    }

    // evl_select_discard
    method Discard()
      requires Agreed() && !dead
      modifies this, Repr
      ensures dead && freed == !inCallback && inCallback == old(inCallback) && spoiled == old(spoiled)
      ensures inCallback ==> Agreed() && Repr == old(Repr) && Kept() && Masks(reg) == old(Masks(reg))
      ensures old(sockets.Parents()) ==> sockets.Parents()
      ensures !inCallback ==> sockets.Contents() == []
    {
      hide Sorted, Items, Nodes, Keys, Linked, Parented, Holds, Indexed, Bounded;
      dead := true;
      if inCallback {
        return;
      }
      ghost var gone := Dispose();
    }

    // One thing that a callback does
    method Perform(a: Action)
      requires Valid() && inCallback
      modifies this, Repr
      ensures Agreed() && fresh(Repr - old(Repr)) && Kept()
      ensures Masks(reg) == Applied(old(Masks(reg)), a)
      ensures spoiled || Valid()
      ensures dead == (old(dead) || a.Discard?)
      ensures spoiled ==> !fixed && a.Del?
    {
      hide Sorted, Items, Nodes, Keys, Linked, Parented, Holds, Indexed, Bounded, Map.Parents, Inserted, Deleted;
      match a
      case Add(sk, events) =>
        var x := FindSelectSk(sk);
        if 0 <= sk && x == null {
          ghost var item := AddSocket(sk, events);
        }
      case Mod(sk, events) =>
        var x := FindSelectSk(sk);
        if x != null {
          ModSocket(sk, events);
        }
      case Del(sk) =>
        var x := FindSelectSk(sk);
        if x != null {
          ghost var item := DelSocket(sk);
        }
      case Discard =>
        if !dead {
          Discard();
        }
    }

    // A callback: any actions, one after the other.  The model goes no further
    // than to the first removal that spoils the parent links.
    method Callback(actions: seq<Action>) returns (ghost done: nat)
      requires Valid() && inCallback
      modifies this, Repr
      ensures Agreed() && fresh(Repr - old(Repr)) && Kept()
      ensures done <= |actions| && Masks(reg) == AppliedAll(old(Masks(reg)), actions[..done])
      ensures spoiled || (Valid() && done == |actions|)
      ensures dead <==> old(dead) || Discards(actions[..done])
      ensures spoiled ==> !fixed && done > 0 && actions[done - 1].Del?
    {
      hide Sorted, Items, Nodes, Keys, Linked, Parented, Holds, Indexed, Bounded, Applied, Map.Parents;
      var i := 0;
      while i < |actions| && !spoiled
        invariant i <= |actions| && Agreed() && inCallback && fresh(Repr - old(Repr)) && Kept()
        invariant Masks(reg) == AppliedAll(old(Masks(reg)), actions[..i])
        invariant dead <==> old(dead) || Discards(actions[..i])
        invariant spoiled || Valid()
        invariant spoiled ==> !fixed && i > 0 && actions[i - 1].Del?
      {
        assert actions[..i + 1][..i] == actions[..i];
        assert actions[..i + 1] == actions[..i] + [actions[i]];
        Perform(actions[i]);
        i := i + 1;
      }
      done := i;
    }

    // An entry of the tree
    ghost predicate Known(x: Entry)
      reads this`reg
    {
      x.data.sk == x.key && x.key in reg && reg[x.key] == x.data
    }

    // map_walk over the entries, the one with index `i` next
    method Next(mi: Item?<SelectSk>, ghost i: nat) returns (next: Item?<SelectSk>)
      requires Valid() && i <= |sockets.Contents()|
      requires mi == if i == 0 then null else sockets.Contents()[i - 1]
      ensures Valid() && next == At(sockets.Contents(), i) && (next != null ==> Known(next))
      ensures next != null && i > 0 ==> sockets.Contents()[i - 1].key < next.key
    {
      hide Sorted, Items, Nodes, Keys, Linked, Parented, Holds, Indexed, Bounded;
      next := sockets.Walk(mi);
      if next != null {
        Ascending(sockets.Contents(), i, reg);
      }
    }

    lemma NotSpoiled()
      requires Valid()
      ensures Agreed() && !spoiled
    {
    }

    // map_touched = 0
    method Untouch()
      requires Valid()
      modifies this`mapTouched
      ensures Valid() && !mapTouched
    {
      mapTouched := false;
    }

    // The first `n` entries are owed nothing
    ghost predicate Settled(n: nat)
      reads this`reg, sockets, reg.Values`have
    {
      n <= |sockets.Contents()| && forall j :: 0 <= j < n ==> sockets.Contents()[j].key !in Due(reg)
    }

    lemma NothingSettled()
      ensures Settled(0)
    {
    }

    lemma NoneDue()
      requires Valid() && Settled(|sockets.Contents()|)
      ensures Due(reg) == {}
    {
      NothingDue(sockets.Contents(), reg);
    }

    lemma Orderly()
      requires Valid()
      ensures Sorted(sockets.Contents()) && Holds(sockets.Contents(), reg)
    {
    }

    // have = 0, and then a bit for each of the three sets that the socket is in
    method Note(ssk: SelectSk, r: set<int>, w: set<int>, x: set<int>)
      requires Valid() && ssk.sk in reg && reg[ssk.sk] == ssk
      modifies ssk`have
      ensures Valid() && ssk.have == Got(ssk.sk, r, w, x)
    {
      var have := NO_EVENTS;
      if ssk.sk in r {
        have := have.(readable := true);
      }
      if ssk.sk in w {
        have := have.(writable := true);
      }
      if ssk.sk in x {
        have := have.(error := true);
      }
      ssk.have := have;
    }

    // The first loop of monitor: what select() gave, noted for each entry
    method Snapshot(r: set<int>, w: set<int>, x: set<int>) returns (active: int)
      requires Valid()
      modifies reg.Values`have
      ensures Valid() && forall k <- reg :: reg[k].have == Got(k, r, w, x)
      ensures active == |Due(reg)|
    {
      hide Sorted, Items, Nodes, Keys, Linked, Parented, Holds, Indexed, Bounded, Noted, Got;
      hide EvlSelect.Valid, EvlSelect.Agreed;
      ghost var s := sockets.Contents();
      ghost var seen: set<int>, i := {}, 0;
      active := 0;
      NotedNone(s, r, w, x);
      var mi := Next(null, 0);
      while mi != null
        invariant Valid() && i <= |s| && mi == At(s, i) && (mi != null ==> Known(mi))
        invariant Noted(s[..i], r, w, x, seen) && active == |seen|
        decreases |s| - i
      {
        var ssk := mi.data;
        Orderly();
        NotedApart(s, i, reg);
        Note(ssk, r, w, x);
        NotedNext(s, i, r, w, x, seen);
        if ssk.have != NO_EVENTS {
          active := active + 1;
          seen := seen + {ssk.sk};
        }
        assert Noted(s[..i + 1], r, w, x, seen);
        i := i + 1;
        mi := Next(mi, i);
      }
      Orderly();
      NotedAll(s, reg, r, w, x, seen);
    }

    // ssk->have = 0
    method Clear(ssk: SelectSk, ghost start: Registry, ghost owed: map<int, SkEvents>, ghost log: seq<Delivery>)
      requires Valid() && ssk.sk in reg && reg[ssk.sk] == ssk && ssk.have != NO_EVENTS
      requires Halfway(reg, start, owed, log)
      modifies ssk`have
      ensures Valid() && ssk.have == NO_EVENTS
      ensures Halfway(reg, start, owed, log + [Delivery(ssk, old(ssk.have))])
      ensures Due(reg) == old(Due(reg)) - {ssk.sk} && Masks(reg) == old(Masks(reg))
    {
      hide Sorted, Items, Nodes, Keys, Linked, Parented, Holds, Indexed, Bounded;
      assert forall k <- reg :: k != ssk.sk ==> reg[k] != ssk;
      ssk.have := NO_EVENTS;
    }

    // Whatever a callback does, nothing is owed but what was.
    method Call(actions: seq<Action>, ghost start: Registry, ghost owed: map<int, SkEvents>, ghost log: seq<Delivery>)
      requires Valid() && inCallback && Halfway(reg, start, owed, log)
      modifies this, Repr
      ensures Agreed() && fresh(Repr - old(Repr)) && Kept() && (spoiled || Valid())
      ensures Halfway(reg, start, owed, log)
      ensures Due(reg) <= old(Due(reg)) && (!mapTouched ==> Due(reg) == old(Due(reg)))
      ensures spoiled || Masks(reg) == AppliedAll(old(Masks(reg)), actions)
      ensures spoiled || (dead <==> old(dead) || Discards(actions))
      ensures spoiled ==> Removes(actions) && !fixed
    {
      hide Sorted, Items, Nodes, Keys, Linked, Parented, Holds, Indexed, Bounded, AppliedAll, Masks, Map.Parents;
      ghost var done := Callback(actions);
      assert !spoiled ==> actions[..done] == actions;
      forall k <- Due(reg) ensures k in old(Due(reg)) {
        assert Came(k) || Stayed(k);
      }
      if !mapTouched {
        forall k <- old(Due(reg)) ensures k in Due(reg) {
          assert k in reg && Stayed(k);
        }
      }
    }

    // One step of the dispatch
    method Deliver(ssk: SelectSk, actions: seq<Action>, ghost start: Registry, ghost owed: map<int, SkEvents>,
                   ghost log: seq<Delivery>)
      requires Valid() && !dead && ssk.sk in reg && reg[ssk.sk] == ssk && ssk.have != NO_EVENTS
      requires Halfway(reg, start, owed, log)
      modifies this, Repr
      ensures Agreed() && !inCallback && fresh(Repr - old(Repr)) && (spoiled || Valid())
      ensures Halfway(reg, start, owed, log + [Delivery(ssk, old(ssk.have))])
      ensures |Due(reg)| < old(|Due(reg)|)
      ensures spoiled || Masks(reg) == AppliedAll(old(Masks(reg)), actions)
      ensures spoiled || (dead <==> Discards(actions))
      ensures spoiled ==> Removes(actions) && !fixed
      ensures old(mapTouched) ==> mapTouched
      ensures !mapTouched ==> sockets.shape == old(sockets.shape) && reg == old(reg)
      ensures !mapTouched ==> Due(reg) == old(Due(reg)) - {ssk.sk}
    {
      hide Sorted, Items, Nodes, Keys, Linked, Parented, Holds, Indexed, Bounded, AppliedAll, Halfway, Due, Masks;
      hide Map.Parents, Removes;
      ghost var have, due := ssk.have, Due(reg);
      DueIs(reg, ssk.sk);
      Clear(ssk, start, owed, log);
      inCallback := true;
      Call(actions, start, owed, log + [Delivery(ssk, have)]);
      inCallback := false;
      FewerDue(Due(reg), due, ssk.sk);
    }

    // One entry of the second loop of monitor.  `stop` is for a way out of it.
    method Turn(mi: Entry, ghost i: nat, active0: int, program: nat -> seq<Action>, calls0: nat,
                ghost start: Registry, ghost owed: map<int, SkEvents>, log0: seq<Delivery>,
                ghost m: map<int, Mask>)
      returns (active: int, calls: nat, stop: bool, again: bool, log: seq<Delivery>)
      requires Valid() && !dead && !inCallback && !mapTouched && |Due(reg)| <= active0
      requires i < |sockets.Contents()| && sockets.Contents()[i] == mi && Known(mi) && Settled(i)
      requires Halfway(reg, start, owed, log0) && Masks(reg) == Ran(m, program, calls0) && calls0 == |log0|
      requires Fate(program, calls0, false)
      modifies this, Repr
      ensures Agreed() && (spoiled || Valid())
      ensures !inCallback && fresh(Repr - old(Repr))
      ensures Halfway(reg, start, owed, log)
      ensures spoiled || (Masks(reg) == Ran(m, program, calls) && calls == |log|)
      ensures spoiled || Fate(program, calls, dead)
      ensures !stop ==> !dead && !spoiled && !mapTouched && !again && active <= active0 && |Due(reg)| <= active
      ensures !stop ==> sockets.shape == old(sockets.shape) && Settled(i + 1)
      ensures stop && !dead && !spoiled ==> if again then |Due(reg)| <= active < active0 else Due(reg) == {}
      ensures spoiled ==> !fixed && MayRemove(program)
    {
      hide Sorted, Items, Nodes, Keys, Linked, Parented, Holds, Indexed, Bounded, Halfway, Due;
      hide Masks, AppliedAll, Ran, Map.Parents, Removes, MayRemove, Fate;
      active, calls, stop, again, log := active0, calls0, false, false, log0;
      var ssk := mi.data;
      DueIs(reg, ssk.sk);
      var have := ssk.have;
      if have == NO_EVENTS {
        return;
      }
      Deliver(ssk, program(calls), start, owed, log);
      RanOneMore(m, program, calls);
      if spoiled {
        MayRemoveAt(program, calls);
      } else {
        FateNext(program, calls, dead);
      }
      log := log + [Delivery(ssk, have)];
      calls := calls + 1;
      if dead || spoiled {
        stop := true;
        return;
      }
      active := active - 1;
      stop := active == 0 || mapTouched;
      again := active != 0 && mapTouched;
    }

    // The second loop of monitor, up to the end or a `goto again`
    method Round(active0: int, program: nat -> seq<Action>, calls0: nat,
                 ghost start: Registry, ghost owed: map<int, SkEvents>, log0: seq<Delivery>,
                 ghost m: map<int, Mask>)
      returns (active: int, calls: nat, again: bool, log: seq<Delivery>)
      requires Valid() && !dead && !inCallback && |Due(reg)| <= active0
      requires Halfway(reg, start, owed, log0) && Masks(reg) == Ran(m, program, calls0) && calls0 == |log0|
      requires Fate(program, calls0, false)
      modifies this, Repr
      ensures Agreed() && (spoiled || Valid())
      ensures !inCallback && fresh(Repr - old(Repr))
      ensures Halfway(reg, start, owed, log)
      ensures spoiled || (Masks(reg) == Ran(m, program, calls) && calls == |log|)
      ensures spoiled || Fate(program, calls, dead)
      ensures !dead && !spoiled ==> if again then |Due(reg)| <= active < active0 else Due(reg) == {}
      ensures spoiled ==> !fixed && MayRemove(program)
    {
      hide Sorted, Items, Nodes, Keys, Linked, Parented, Holds, Indexed, Bounded, Halfway, Due;
      hide Masks, AppliedAll, Ran, Map.Parents, Removes, MayRemove, Fate, EvlSelect.Agreed, EvlSelect.Valid;
      hide EvlSelect.Known, EvlSelect.Settled, EvlSelect.Shaped, Map.Valid;
      active, calls, again, log := active0, calls0, false, log0;
      Untouch();
      ghost var s := sockets.Contents();
      ghost var i := 0;
      NothingSettled();
      var mi := Next(null, 0);
      while mi != null
        invariant Valid() && !dead && !inCallback && fresh(Repr - old(Repr)) && !mapTouched && !again
        invariant sockets.Contents() == s && i <= |s| && mi == At(s, i) && (mi != null ==> Known(mi))
        invariant Settled(i)
        invariant Fate(program, calls, dead)
        invariant Halfway(reg, start, owed, log) && |Due(reg)| <= active <= active0
        invariant Masks(reg) == Ran(m, program, calls) && calls == |log|
        decreases |s| - i
      {
        var stop;
        active, calls, stop, again, log := Turn(mi, i, active, program, calls, start, owed, log, m);
        if stop {
          return;
        }
        i := i + 1;
        mi := Next(mi, i);
      }
      NoneDue();
      NotSpoiled();
    }

    // The dispatch, begun again for as long as callbacks touch the map
    method Dispatch(found: int, program: nat -> seq<Action>, ghost owed: map<int, SkEvents>)
      returns (r: int, log: seq<Delivery>)
      requires Valid() && !dead && !inCallback && |Due(reg)| <= found
      requires Halfway(reg, reg, owed, [])
      modifies this, Repr
      ensures freed == dead && (dead || Agreed()) && !inCallback && fresh(Repr - old(Repr))
      ensures dead || spoiled || Valid()
      ensures r == if dead then -1 else 0
      ensures Sound(old(reg), owed, log)
      // it goes on until it is done or a callback discards the loop, and no further
      ensures spoiled || Fate(program, |log|, dead)
      ensures !dead && !spoiled ==>
                forall k <- reg :: k in old(reg) && reg[k] == old(reg)[k] && owed[k] != NO_EVENTS ==>
                  reg[k] in Told(log)
      ensures !dead && !spoiled ==> Masks(reg) == Ran(old(Masks(reg)), program, |log|)
      ensures spoiled ==> !fixed && MayRemove(program)
    {
      hide Sorted, Items, Nodes, Keys, Linked, Parented, Holds, Indexed, Bounded, Halfway, Due, Masks;
      hide Map.Parents, Removes, Fate;
      FateNone(program);
      ghost var start := reg;
      var active, calls, again := found, 0, true;
      log := [];
      while again
        invariant Valid() && !dead && !inCallback && fresh(Repr - old(Repr))
        invariant Fate(program, calls, false)
        invariant Halfway(reg, start, owed, log)
        invariant Masks(reg) == Ran(old(Masks(reg)), program, calls) && calls == |log|
        invariant if again then |Due(reg)| <= active else Due(reg) == {}
        decreases again, active
      {
        active, calls, again, log := Round(active, program, calls, start, owed, log, old(Masks(reg)));
        HalfwayIsSound(reg, start, owed, log);
        if dead {
          ghost var gone := Dispose();
          return -1, log;
        }
        if spoiled {
          return 0, log;    // there is nothing to be said of the next walk
        }
      }
      HalfwayIsSound(reg, start, owed, log);
      return 0, log;
    }

    // evl_select_monitor
    method Monitor(at: Ready, program: nat -> seq<Action>) returns (r: int, log: seq<Delivery>)
      requires Valid() && (dead ==> inCallback)
      modifies this, Repr
      ensures freed || Agreed()
      ensures freed || spoiled || Valid()
      ensures fresh(Repr - old(Repr))
      ensures spoiled ==> !fixed && MayRemove(program)
      ensures old(inCallback) ==>
                r == -1 && log == [] && unchanged(this) && Masks(reg) == old(Masks(reg))
      ensures !old(inCallback) ==> freed == dead && !inCallback && r == if dead || !at.ok then -1 else 0
      // each entry is called at most once, with just what happened to it,
      ensures Sound(old(reg), Owed(old(Masks(reg)), at), log)
      // and it is called if it is still there
      ensures r == 0 && !spoiled ==>
                forall k <- reg :: k in old(reg) && reg[k] == old(reg)[k] ==>
                  Owed(old(Masks(reg)), at)[k] != NO_EVENTS ==> reg[k] in Told(log)
      // and what is watched then is what the callbacks made of it
      ensures r == 0 && !spoiled ==> Masks(reg) == Ran(old(Masks(reg)), program, |log|)
      // a loop is discarded if and only if a callback asks for it, and then that was
      // the last one called
      ensures !old(inCallback) && !spoiled ==> Fate(program, |log|, dead)
      // a select() that fails leaves everything alone
      ensures !at.ok ==>
                log == [] && unchanged(this) && Masks(reg) == old(Masks(reg)) &&
                forall k <- reg :: reg[k].have == old(reg[k].have)
    {
      hide Sorted, Items, Nodes, Keys, Linked, Parented, Holds, Indexed, Bounded, Halfway, Due, Occurred, Map.Parents;
      hide Removes, Fate;
      FateNone(program);
      log := [];
      if inCallback {
        return -1, log;
      }
      ghost var m, start := Masks(reg), reg;
      var fdR, fdW, fdX := {}, {}, {};
      if nfds == 0 {
        r := if at.ok then 0 else -1;
        NothingWatched(m, fdsR, fdsW, fdsX);
      } else {
        r, fdR, fdW, fdX := Select(nfds, fdsR, fdsW, fdsX, at);
      }
      if r < 0 {
        return -1, log;
      }
      SelectedIsOwed(m, nfds, fdsR, fdsW, fdsX, at, fdR, fdW, fdX);
      if r == 0 {
        return 0, log;
      }
      var active := Snapshot(fdR, fdW, fdX);
      BeginsHalfway(reg, Owed(m, at));
      assert active > 0;    // as the source asserts
      r, log := Dispatch(active, program, Owed(m, at));
    }
  }

  // Sockets 2, 1 and 3 are added.
  method ThreeSockets(e: Mask) returns (evl: EvlSelect, ghost a: Entry, ghost b: Entry, ghost c: Entry)
    ensures fresh(evl) && fresh(evl.Repr) && evl.Valid() && !evl.fixed
    ensures Masks(evl.reg) == map[1 := e, 2 := e, 3 := e]
    ensures a.key == 1 && b.key == 2 && c.key == 3
    ensures evl.sockets.shape == Node(Twig(a), b, Twig(c))
  {
    hide Items, Nodes, Sorted, Linked, Parented, Holds, Keys, Indexed, Bounded, Inserted, Deleted, Twig;
    hide Map.Valid, Map.Parents, EvlSelect.Kept, Masks, EvlSelect.Agreed, EvlSelect.Shaped;
    evl := new EvlSelect(false);
    MasksKeys(evl.reg);
    b := evl.AddSocket(2, e);
    MasksKeys(evl.reg);
    a := evl.AddSocket(1, e);
    MasksKeys(evl.reg);
    c := evl.AddSocket(3, e);
    TreesOfThree(a, b, c);
  }

  lemma MasksKeys(reg: Registry)
    ensures Masks(reg).Keys == reg.Keys
  {
  }

  lemma HighestOfTwo(e: Mask, nfds: int)
    requires Bounded(map[1 := e, 3 := e], nfds)
    ensures nfds == 4
  {
    var m := map[1 := e, 3 := e];
    assert 3 in m && m != map[];
  }

  // Then 2 is removed, with map_del as written.  The registry is right, but
  // parent links are not.
  method SpoiledSockets(e: Mask) returns (evl: EvlSelect, ghost a: Entry, ghost c: Entry)
    ensures fresh(evl) && fresh(evl.Repr) && evl.Agreed() && !evl.Valid() && !evl.fixed
    ensures Masks(evl.reg) == map[1 := e, 3 := e]
    ensures a.key == 1 && c.key == 3 && evl.sockets.shape == Node(Leaf, a, Twig(c))
    ensures a.p == a
  {
    hide Items, Nodes, Sorted, Linked, Parented, Holds, Keys, Indexed, Bounded, Inserted, Deleted, Twig;
    hide Map.Parents, EvlSelect.Kept, Masks;
    ghost var b, x;
    evl, a, b, c := ThreeSockets(e);
    TreesOfThree(a, b, c);
    LinksOfThree(a, b, c);
    MasksKeys(evl.reg);
    x := evl.DelSocket(2);
    assert x == b;
  }

  // Then 3 is removed.  It is the largest socket, so the removal goes on to walk
  // the tree for nfds.  But the walk never gets past socket 1.
  method Stuck(e: Mask) returns (evl: EvlSelect, one: Item?<SelectSk>)
    ensures evl.Shaped() && !evl.fixed && Masks(evl.reg) == map[1 := e] && evl.nfds == 3 + 1
    ensures one != null && evl.sockets.Contents() == [one] && one.r == null
    ensures forall steps: nat :: Climbed(one, steps) == one
  {
    hide Items, Nodes, Sorted, Linked, Parented, Holds, Keys, Indexed, Bounded, Inserted, Deleted, Precedes, Twig, Climbed;
    hide Map.Parents, Map.Valid, EvlSelect.Shaped, EvlSelect.Kept, Masks;
    ghost var a, c;
    evl, a, c := SpoiledSockets(e);
    HighestOfTwo(e, evl.nfds);
    evl.Rooted();
    TreesOfTwo(a, c);
    LinksOfTwo(a, c);
    MasksKeys(evl.reg);
    var item := evl.FindSelectSk(3);
    assert item == c && Kin(item) == {};
    evl.AroundEntry(item);
    evl.Forget(item);
    evl.Rooted();
    LinksOfOne(a);
    one := evl.sockets.root;
    assert one == a;
    forall steps: nat ensures Climbed(one, steps) == one {
      ClimbsForever(one, steps);
    }
  }
}
