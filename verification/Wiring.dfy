// A proxy on its event loop: the two sockets of its bridge are what the loop
// watches, and what monitor delivers is what the host's pipes are handed.
module Wiring {
  import opened Tcp
  import opened Pipes
  import opened Bridge
  import opened Proxy
  import EventLoop

  // What the pipes of a host want watched, for the sockets `l` and `r`
  function Wanting(host: Host, l: int, r: int): map<int, Mask>
    reads host.bridge.l.pipe.Bottom().sk, host.bridge.r.pipe.Bottom().sk
  {
    map[l := host.bridge.l.pipe.Bottom().sk.watched, r := host.bridge.r.pipe.Bottom().sk.watched]
  }

  lemma WantingKeys(host: Host, l: int, r: int)
    ensures Wanting(host, l, r).Keys == {l, r}
  {
  }

  // What a callback asks of the loop: mod_socket with the masks of both pipes.
  // One that has not changed is as good as no call.
  function Mods(l: int, r: int, masks: (Mask, Mask)): seq<EventLoop.Action> {
    [EventLoop.Mod(l, masks.0), EventLoop.Mod(r, masks.1)]
  }

  lemma ModsAreApplied(m: map<int, Mask>, l: int, r: int, masks: (Mask, Mask))
    requires m.Keys == {l, r} && l != r
    ensures EventLoop.AppliedAll(m, Mods(l, r, masks)) == map[l := masks.0, r := masks.1]
  {
    var s := Mods(l, r, masks);
    assert s[..1] == [s[0]] && s[..1][..0] == [];
    assert EventLoop.AppliedAll(m, s[..1]) == m[l := masks.0];
  }

  lemma {:induction false} ModsAreRan(m: map<int, Mask>, program: nat -> seq<EventLoop.Action>, l: int, r: int,
                                      asked: seq<(Mask, Mask)>)
    requires m.Keys == {l, r} && l != r
    requires forall n :: 0 <= n < |asked| ==> program(n) == Mods(l, r, asked[n])
    ensures EventLoop.Ran(m, program, |asked|) ==
            if asked == [] then m else map[l := asked[|asked| - 1].0, r := asked[|asked| - 1].1]
  {
    if asked != [] {
      var n := |asked| - 1;
      ModsAreRan(m, program, l, r, asked[..n]);
      ModsAreApplied(EventLoop.Ran(m, program, n), l, r, asked[n]);
    }
  }

  ghost predicate NoFalseFin(host: Host)
    requires host.Valid()
    reads host, host.bridge, host.bridge.l, host.bridge.l.Repr, host.bridge.r, host.bridge.r.Repr
  {
    && host.bridge.l.pipe.NoFalseFin(host.bridge.l.Arrived())
    && host.bridge.r.pipe.NoFalseFin(host.bridge.r.Arrived())
  }

  ghost predicate Called(log: seq<EventLoop.Delivery>, k: int) {
    exists d <- log :: d.to.sk == k
  }

  lemma NotTwice(start: EventLoop.Registry, owed: map<int, SkEvents>, log: seq<EventLoop.Delivery>, i: nat)
    requires EventLoop.Sound(start, owed, log) && i < |log|
    ensures log[i].to.sk in start && log[i].events == owed[log[i].to.sk] != NO_EVENTS
    ensures !Called(log[..i], log[i].to.sk)
    ensures forall k :: Called(log[..i + 1], k) <==> Called(log[..i], k) || k == log[i].to.sk
  {
    assert log[i] in log;
    assert log[..i + 1] == log[..i] + [log[i]];
    assert log[i] in log[..i + 1];
    forall d <- log[..i] ensures d.to.sk != log[i].to.sk {
      var j :| 0 <= j < i && log[j] == d;
      assert log[j] in log;
    }
  }

  // What is still to be handed over, of what was collected
  ghost function Left(owed: SkEvents, log: seq<EventLoop.Delivery>, k: int): SkEvents {
    if Called(log, k) then NO_EVENTS else owed
  }

  lemma NothingHanded(owed: SkEvents, k: int)
    ensures Left(owed, [], k) == owed
  {
  }

  // Deliveries, as the host sees them
  ghost function Handed(log: seq<EventLoop.Delivery>, l: int): seq<(bool, SkEvents)> {
    seq(|log|, i requires 0 <= i < |log| => (log[i].to.sk == l, log[i].events))
  }

  // One delivery
  method HandOver(host: Host, l: int, r: int, ghost start: EventLoop.Registry, ghost owed: map<int, SkEvents>,
                  log: seq<EventLoop.Delivery>, i: nat)
    requires host.Valid() && !host.bridge.aborted && l != r && i < |log|
    requires start.Keys == owed.Keys == {l, r} && EventLoop.Sound(start, owed, log)
    requires host.haveL == Left(owed[l], log[..i], l) && host.haveR == Left(owed[r], log[..i], r)
    modifies host.Repr()
    ensures host.Valid() && fresh(host.Repr() - old(host.Repr()))
    ensures host.haveL == Left(owed[l], log[..i + 1], l) && host.haveR == Left(owed[r], log[..i + 1], r)
    ensures NoFalseFin(host) ==> !host.bridge.aborted
    ensures host.handled == old(host.handled) + [(log[i].to.sk == l, log[i].events)]
    // the event is not lost on its pipe
    ensures !old(host.bridge.dead) && !host.bridge.aborted && host.bridge.shutdowns != [false] ==>
              if log[i].to.sk == l then Heeded(old(host.L()), old(host.R()), log[i].events, host.L(), host.R())
              else Heeded(old(host.R()), old(host.L()), log[i].events, host.R(), host.L())
  {
    hide Host.Valid, Stream.Valid, Stream.S, Stream.Arrived, Pipe.NoFalseFin, Grown, EventLoop.Sound, Called, Heeded;
    NotTwice(start, owed, log, i);
    host.Dispatch(log[i].to.sk == l);
  }

  // The deliveries of a round, as the host takes them.  `asked` are the masks
  // that the callbacks leave behind, one after the other.
  method Replay(host: Host, l: int, r: int, ghost start: EventLoop.Registry, ghost owed: map<int, SkEvents>,
                log: seq<EventLoop.Delivery>)
    returns (ghost asked: seq<(Mask, Mask)>)
    requires host.Valid() && !host.bridge.aborted && l != r
    requires start.Keys == owed.Keys == {l, r} && EventLoop.Sound(start, owed, log)
    requires host.haveL == owed[l] && host.haveR == owed[r]
    modifies host.Repr()
    ensures host.Valid() && fresh(host.Repr() - old(host.Repr()))
    ensures !host.bridge.aborted ==>
              host.haveL == Left(owed[l], log, l) && host.haveR == Left(owed[r], log, r)
    ensures !host.bridge.aborted ==>
              |asked| == |log| &&
              Wanting(host, l, r) ==
              if asked == [] then old(Wanting(host, l, r))
              else map[l := asked[|asked| - 1].0, r := asked[|asked| - 1].1]
    ensures !host.bridge.aborted ==> host.handled == old(host.handled) + Handed(log, l)
    ensures NoFalseFin(host) ==> !host.bridge.aborted
  {
    hide Host.Valid, Stream.Valid, Stream.S, Stream.Arrived, NoFalseFin, EventLoop.Sound, Left;
    asked := [];
    var i := 0;
    NothingHanded(owed[l], l);
    NothingHanded(owed[r], r);
    assert log[..0] == [];
    while i < |log| && !host.bridge.aborted
      invariant i <= |log| && host.Valid() && fresh(host.Repr() - old(host.Repr()))
      invariant !host.bridge.aborted ==>
                  host.haveL == Left(owed[l], log[..i], l) && host.haveR == Left(owed[r], log[..i], r)
      invariant |asked| == i && host.handled == old(host.handled) + Handed(log[..i], l)
      invariant Wanting(host, l, r) ==
                if asked == [] then old(Wanting(host, l, r))
                else map[l := asked[|asked| - 1].0, r := asked[|asked| - 1].1]
      invariant NoFalseFin(host) ==> !host.bridge.aborted
    {
      HandOver(host, l, r, start, owed, log, i);
      assert Handed(log[..i + 1], l) == Handed(log[..i], l) + [(log[i].to.sk == l, log[i].events)];
      asked := asked + [(host.bridge.l.pipe.Bottom().sk.watched, host.bridge.r.pipe.Bottom().sk.watched)];
      i := i + 1;
    }
    assert log[..|log|] == log;
  }

  // What a round of monitor found for a host, and delivered to it
  method Take(host: Host, l: int, r: int, at: EventLoop.Ready, ghost start: EventLoop.Registry,
              log: seq<EventLoop.Delivery>)
    returns (ghost asked: seq<(Mask, Mask)>)
    requires host.Valid() && !host.bridge.aborted && l != r
    requires start.Keys == {l, r} && EventLoop.Sound(start, EventLoop.Owed(Wanting(host, l, r), at), log)
    modifies host.Repr()
    ensures host.Valid() && fresh(host.Repr() - old(host.Repr()))
    ensures !host.bridge.aborted ==>
              var owed := EventLoop.Owed(old(Wanting(host, l, r)), at);
              host.haveL == Left(owed[l], log, l) && host.haveR == Left(owed[r], log, r)
    ensures !host.bridge.aborted ==>
              |asked| == |log| &&
              Wanting(host, l, r) ==
              if asked == [] then old(Wanting(host, l, r))
              else map[l := asked[|asked| - 1].0, r := asked[|asked| - 1].1]
    ensures !host.bridge.aborted ==> host.handled == old(host.handled) + Handed(log, l)
    ensures NoFalseFin(host) ==> !host.bridge.aborted
  {
    hide Host.Valid, Stream.Valid, Stream.S, Stream.Arrived, NoFalseFin, EventLoop.Sound, Called, Handed;
    ghost var owed := EventLoop.Owed(Wanting(host, l, r), at);
    host.bridge.l.Carrier();
    host.bridge.r.Carrier();
    host.Collect(EventLoop.Occurred(at, l, host.bridge.l.pipe.Bottom().sk.watched),
                 EventLoop.Occurred(at, r, host.bridge.r.pipe.Bottom().sk.watched));
    asked := Replay(host, l, r, start, owed, log);
  }

  // What monitor does for a loop that watches two sockets
  method Watch(evl: EventLoop.EvlSelect, l: int, r: int, at: EventLoop.Ready, program: nat -> seq<EventLoop.Action>)
    returns (res: int, log: seq<EventLoop.Delivery>)
    requires evl.Valid() && !evl.dead && !evl.inCallback && EventLoop.Masks(evl.reg).Keys == {l, r}
    modifies evl, evl.Repr
    ensures fresh(evl.Repr - old(evl.Repr)) && evl.freed == evl.dead && (evl.dead ==> res == -1)
    ensures (evl.freed || evl.Agreed()) && (evl.freed || evl.spoiled || evl.Valid())
    ensures evl.spoiled ==> !evl.fixed && EventLoop.MayRemove(program)
    ensures old(evl.reg).Keys == {l, r}
    ensures EventLoop.Sound(old(evl.reg), EventLoop.Owed(old(EventLoop.Masks(evl.reg)), at), log)
    ensures res == 0 && !evl.spoiled ==>
              EventLoop.Masks(evl.reg) == EventLoop.Ran(old(EventLoop.Masks(evl.reg)), program, |log|)
    ensures res == 0 && !evl.spoiled && evl.reg == old(evl.reg) ==>
              var owed := EventLoop.Owed(old(EventLoop.Masks(evl.reg)), at);
              Left(owed[l], log, l) == Left(owed[r], log, r) == NO_EVENTS
  {
    hide EventLoop.EvlSelect.Agreed, EventLoop.EvlSelect.Valid, EventLoop.Ran, EventLoop.MayRemove, EventLoop.Owed;
    hide EventLoop.Masks, EventLoop.Sound, Called, EventLoop.Told;
    ghost var start := evl.reg;
    evl.NotSpoiled();
    evl.Inside();
    EventLoop.MasksKeys(evl.reg);
    res, log := evl.Monitor(at, program);
    ToldIsCalled(start, log, l);
    ToldIsCalled(start, log, r);
  }

  lemma ToldIsCalled(start: EventLoop.Registry, log: seq<EventLoop.Delivery>, k: int)
    requires k in start && start[k].sk == k
    ensures start[k] in EventLoop.Told(log) ==> Called(log, k)
  {
  }

  // The loop and the host have nothing in common.
  method WatchBeside(host: Host, evl: EventLoop.EvlSelect, l: int, r: int, at: EventLoop.Ready,
                     program: nat -> seq<EventLoop.Action>)
    returns (res: int, log: seq<EventLoop.Delivery>)
    requires host.Valid() && {evl} + evl.Repr !! host.Repr()
    requires evl.Valid() && !evl.dead && !evl.inCallback && EventLoop.Masks(evl.reg).Keys == {l, r}
    modifies evl, evl.Repr
    ensures host.Valid() && host.bridge.aborted == old(host.bridge.aborted) && {evl} + evl.Repr !! host.Repr()
    ensures host.Repr() == old(host.Repr()) && Wanting(host, l, r) == old(Wanting(host, l, r))
    ensures host.handled == old(host.handled)
    ensures fresh(evl.Repr - old(evl.Repr)) && evl.freed == evl.dead && (evl.dead ==> res == -1)
    ensures (evl.freed || evl.Agreed()) && (evl.freed || evl.spoiled || evl.Valid())
    ensures evl.spoiled ==> !evl.fixed && EventLoop.MayRemove(program)
    ensures old(evl.reg).Keys == {l, r}
    ensures EventLoop.Sound(old(evl.reg), EventLoop.Owed(old(EventLoop.Masks(evl.reg)), at), log)
    ensures res == 0 && !evl.spoiled ==>
              EventLoop.Masks(evl.reg) == EventLoop.Ran(old(EventLoop.Masks(evl.reg)), program, |log|)
    ensures res == 0 && !evl.spoiled && evl.reg == old(evl.reg) ==>
              var owed := EventLoop.Owed(old(EventLoop.Masks(evl.reg)), at);
              Left(owed[l], log, l) == Left(owed[r], log, r) == NO_EVENTS
  {
    hide Host.Valid, Stream.Valid, EventLoop.Sound, EventLoop.Masks, EventLoop.Owed, EventLoop.Ran, EventLoop.MayRemove;
    hide EventLoop.EvlSelect.Agreed, EventLoop.EvlSelect.Valid, Left, Pipe.Bottom;
    host.bridge.l.Carrier();
    host.bridge.r.Carrier();
    res, log := Watch(evl, l, r, at, program);
  }

  method TakeBeside(host: Host, evl: EventLoop.EvlSelect, l: int, r: int, at: EventLoop.Ready,
                    ghost start: EventLoop.Registry, log: seq<EventLoop.Delivery>)
    returns (ghost asked: seq<(Mask, Mask)>)
    requires evl.Agreed() && {evl} + evl.Repr !! host.Repr()
    requires host.Valid() && !host.bridge.aborted && l != r
    requires start.Keys == {l, r} && EventLoop.Sound(start, EventLoop.Owed(Wanting(host, l, r), at), log)
    modifies host.Repr()
    ensures evl.Agreed() && (old(evl.Valid()) ==> evl.Valid())
    ensures EventLoop.Masks(evl.reg) == old(EventLoop.Masks(evl.reg))
    ensures host.Valid() && fresh(host.Repr() - old(host.Repr()))
    ensures !host.bridge.aborted ==>
              var owed := EventLoop.Owed(old(Wanting(host, l, r)), at);
              host.haveL == Left(owed[l], log, l) && host.haveR == Left(owed[r], log, r)
    ensures !host.bridge.aborted ==>
              |asked| == |log| &&
              Wanting(host, l, r) ==
              if asked == [] then old(Wanting(host, l, r))
              else map[l := asked[|asked| - 1].0, r := asked[|asked| - 1].1]
    ensures !host.bridge.aborted ==> host.handled == old(host.handled) + Handed(log, l)
    ensures NoFalseFin(host) ==> !host.bridge.aborted
  {
    hide Host.Valid, Stream.Valid, Stream.Arrived, NoFalseFin, EventLoop.Sound, EventLoop.Masks, EventLoop.Owed;
    hide EventLoop.EvlSelect.Agreed, EventLoop.EvlSelect.Valid, Wanting, Left;
    evl.Inside();
    asked := Take(host, l, r, at, start, log);
  }

  // One call of monitor, and what comes of it.  If the loop watches what the
  // pipes want watched, then each socket's pipe is handed at most once what has
  // happened of what it wanted, and the loop watches what the pipes want after
  // that; provided that `program` is what the callbacks do.
  method Cycle(host: Host, evl: EventLoop.EvlSelect, l: int, r: int, at: EventLoop.Ready,
               program: nat -> seq<EventLoop.Action>)
    returns (res: int, log: seq<EventLoop.Delivery>, ghost asked: seq<(Mask, Mask)>)
    requires host.Valid() && !host.bridge.aborted && l != r
    requires evl.Valid() && !evl.dead && !evl.inCallback && {evl} + evl.Repr !! host.Repr()
    requires EventLoop.Masks(evl.reg) == Wanting(host, l, r)
    modifies host.Repr(), evl, evl.Repr
    ensures host.Valid() && (evl.freed || evl.Agreed()) && (evl.freed || evl.spoiled || evl.Valid())
    ensures NoFalseFin(host) ==> !host.bridge.aborted
    ensures evl.spoiled ==> !evl.fixed && EventLoop.MayRemove(program)
    // what the loop delivered, to each socket once, is what the host has handled
    ensures old(evl.reg).Keys == {l, r}
    ensures EventLoop.Sound(old(evl.reg), EventLoop.Owed(old(Wanting(host, l, r)), at), log)
    ensures !host.bridge.aborted ==> host.handled == old(host.handled) + Handed(log, l)
    ensures res == 0 && !evl.spoiled && !host.bridge.aborted &&
            (forall n :: 0 <= n < |asked| ==> program(n) == Mods(l, r, asked[n])) ==>
              EventLoop.Masks(evl.reg) == Wanting(host, l, r)
    // nothing that was collected is left over
    ensures res == 0 && !evl.spoiled && !host.bridge.aborted && evl.reg == old(evl.reg) ==>
              host.haveL == host.haveR == NO_EVENTS
  {
    hide Host.Valid, Stream.Valid, Stream.Arrived, NoFalseFin, EventLoop.Sound, EventLoop.Masks, EventLoop.Owed;
    hide EventLoop.EvlSelect.Agreed, EventLoop.EvlSelect.Valid, EventLoop.Ran, EventLoop.MayRemove;
    hide Wanting, Mods, Left, Handed, Host.Repr;
    ghost var m, start := EventLoop.Masks(evl.reg), evl.reg;
    WantingKeys(host, l, r);
    res, log := WatchBeside(host, evl, l, r, at, program);
    if evl.dead {
      asked := Take(host, l, r, at, start, log);    // a callback has discarded the loop
      return;
    }
    asked := TakeBeside(host, evl, l, r, at, start, log);
    if |asked| == |log| && forall n :: 0 <= n < |asked| ==> program(n) == Mods(l, r, asked[n]) {
      ModsAreRan(m, program, l, r, asked);
    }
  }

  // A new loop that watches two sockets
  method TwoSockets(l: int, lm: Mask, r: int, rm: Mask) returns (evl: EventLoop.EvlSelect)
    requires 0 <= l && 0 <= r && l != r
    ensures fresh(evl) && fresh(evl.Repr) && evl.Valid() && !evl.dead && !evl.inCallback
    ensures EventLoop.Masks(evl.reg) == map[l := lm, r := rm]
  {
    hide EventLoop.Masks, EventLoop.EvlSelect.Agreed;
    evl := new EventLoop.EvlSelect(false);
    EventLoop.MasksKeys(evl.reg);
    ghost var x := evl.AddSocket(l, lm);
    EventLoop.MasksKeys(evl.reg);
    ghost var y := evl.AddSocket(r, rm);
  }

  // init, for both pipes of a proxy, on a new loop
  method Start(host: Host, l: int, r: int) returns (evl: EventLoop.EvlSelect)
    requires host.Valid() && 0 <= l && 0 <= r && l != r
    ensures host.Valid() && fresh(evl) && fresh(evl.Repr) && {evl} + evl.Repr !! host.Repr()
    ensures evl.Valid() && !evl.dead && !evl.inCallback && EventLoop.Masks(evl.reg) == Wanting(host, l, r)
  {
    hide Host.Valid, Stream.Valid, EventLoop.Masks, EventLoop.EvlSelect.Agreed, EventLoop.EvlSelect.Valid, Pipe.Bottom;
    host.bridge.l.Carrier();
    host.bridge.r.Carrier();
    evl := TwoSockets(l, host.bridge.l.pipe.Bottom().sk.watched, r, host.bridge.r.pipe.Bottom().sk.watched);
  }
}
