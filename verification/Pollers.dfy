/**
 The two pollers (IMServer/net/poller/PollPoller.cc, IMServer/net/poller/EPollPoller.cc).

 PollPoller keeps a dense vector of pollfd slots and encodes an ignored slot as a negative fd.
 EPollPoller keeps a state tag in each channel and tells the kernel about every change. Both are
 specified by a table from descriptor to event mask and to whether the kernel watches it at all.
 */
module Pollers {
  import opened Options

  type Fd = nat

  /** The bits of poll(2) and epoll(7) that channels set and the kernel returns; a short holds them all. */
  type Mask = m: nat | m < 0x8000

  datatype Interest = Interest(mask: Mask, watched: bool)

  type Table = map<Fd, Interest>

  // ---- what the pollers do to the table ------------------------------------------------------

  function PollUpdate(t: Table, fd: Fd, mask: Mask): Table {
    t[fd := Interest(mask, if fd in t then mask != 0 else true)]
  }

  function EPollUpdate(t: Table, fd: Fd, mask: Mask): Table {
    t[fd := Interest(mask, if fd in t && t[fd].watched then mask != 0 else true)]
  }

  function Remove(t: Table, fd: Fd): Table {
    t - {fd}
  }

  /** What the kernel is told to watch, channels without events included. */
  function KernelList(t: Table): map<Fd, Mask> {
    map f | f in t && t[f].watched :: t[f].mask
  }

  // ---- channels ------------------------------------------------------------------------------

  const NEW := -1
  const ADDED := 1
  const DELETED := 2

  class Channel {
    const fd: Fd
    var events: Mask
    var revents: Mask
    var index: int

    constructor (fd: Fd)
      ensures this.fd == fd && events == 0 && index == NEW
    {
      this.fd := fd;
      events, revents, index := 0, 0, NEW;
    }
  }

  // ---- poll(2) -------------------------------------------------------------------------------

  datatype PollFd = PollFd(fd: int, events: Mask, revents: Mask)

  /** static_cast<short>, which keeps every mask. */
  function ToShort(m: int): (r: int)
    ensures -0x8000 <= r < 0x8000 && (r - m) % 0x1_0000 == 0
    ensures 0 <= m < 0x8000 ==> r == m
  {
    (m + 0x8000) % 0x1_0000 - 0x8000
  }

  /** An ignored slot keeps its descriptor, encoded so that 0 can be negated. */
  function Ignored(fd: Fd): int {
    -1 - fd
  }

  function Decoded(fd: int): Fd {
    if fd < 0 then -1 - fd else fd
  }

  /** What a registered channel holds: its own mask and the index of its slot. */
  datatype Registered = Registered(events: Mask, index: int)

  /** pollfds_ and the registered channels, as values. */
  datatype Slots = Slots(pollfds: seq<PollFd>, chans: map<Fd, Registered>) {

    predicate SlotOf(f: Fd)
      requires f in chans
    {
      var ch := chans[f];
      && 0 <= ch.index < |pollfds|
      && Decoded(pollfds[ch.index].fd) == f && pollfds[ch.index].events == ch.events
      && (pollfds[ch.index].fd < 0 ==> ch.events == 0)
    }

    predicate ChannelOf(i: int)
      requires 0 <= i < |pollfds|
    {
      Decoded(pollfds[i].fd) in chans && chans[Decoded(pollfds[i].fd)].index == i
    }

    /** Slots and channels are in bijection, and each slot carries its channel's mask. */
    predicate Bijective() {
      (forall f | f in chans :: SlotOf(f)) && (forall i | 0 <= i < |pollfds| :: ChannelOf(i))
    }

    /** What the channels ask for, and whether their slots are live. */
    function View(): Table
      requires Bijective()
    {
      map f | f in chans :: Interest(chans[f].events, pollfds[chans[f].index].fd >= 0)
    }

    function Add(f: Fd, mask: Mask): Slots {
      Slots(pollfds + [PollFd(f, mask, 0)], chans[f := Registered(mask, |pollfds|)])
    }

    function Set(f: Fd, mask: Mask): Slots
      requires f in chans && 0 <= chans[f].index < |pollfds|
    {
      Slots(pollfds[chans[f].index := PollFd(if mask == 0 then Ignored(f) else f, mask, 0)],
            chans[f := Registered(mask, chans[f].index)])
    }

    /** Swap the slot with the last one, tell the moved channel its new index, and drop the last. */
    function Drop(f: Fd): Slots
      requires f in chans && 0 <= chans[f].index < |pollfds|
    {
      var idx, last := chans[f].index, |pollfds| - 1;
      var moved := Decoded(pollfds[last].fd);
      Slots(pollfds[idx := pollfds[last]][..last],
            if idx == last || moved !in chans then chans - {f}
            else (chans - {f})[moved := Registered(chans[moved].events, idx)])
    }
  }

  lemma AddIsUpdate(s: Slots, f: Fd, mask: Mask)
    requires s.Bijective() && f !in s.chans
    ensures s.Add(f, mask).Bijective()
    ensures s.Add(f, mask).View() == PollUpdate(s.View(), f, mask)
  {
    var r := s.Add(f, mask);
    forall g | g in r.chans
      ensures r.SlotOf(g)
    {
      assert g != f ==> s.SlotOf(g);
    }
    forall i | 0 <= i < |r.pollfds|
      ensures r.ChannelOf(i)
    {
      assert i < |s.pollfds| ==> s.ChannelOf(i);
    }
  }

  lemma SetIsUpdate(s: Slots, f: Fd, mask: Mask)
    requires s.Bijective() && f in s.chans
    ensures s.SlotOf(f) && s.Set(f, mask).Bijective()
    ensures s.Set(f, mask).View() == PollUpdate(s.View(), f, mask)
  {
    var r := s.Set(f, mask);
    forall g | g in r.chans
      ensures r.SlotOf(g)
    {
      assert s.SlotOf(g) && s.SlotOf(f);
    }
    forall i | 0 <= i < |r.pollfds|
      ensures r.ChannelOf(i)
    {
      assert s.ChannelOf(i);
    }
    forall g | g in r.chans && g != f
      ensures r.View()[g] == s.View()[g]
    {
      assert s.SlotOf(g) && s.SlotOf(f);
    }
  }

  lemma DropIsRemove(s: Slots, f: Fd)
    requires s.Bijective() && f in s.chans
    ensures s.SlotOf(f) && s.ChannelOf(|s.pollfds| - 1) && s.Drop(f).Bijective()
    ensures s.Drop(f).View() == Remove(s.View(), f)
  {
    DropBijective(s, f);
    var r, last := s.Drop(f), |s.pollfds| - 1;
    assert s.SlotOf(f) && s.ChannelOf(last);
    assert r.chans.Keys == s.chans.Keys - {f};
    forall g | g in r.chans
      ensures r.View()[g] == s.View()[g]
    {
      assert s.SlotOf(g) && r.SlotOf(g);
      assert s.ChannelOf(s.chans[g].index);
    }
  }

  lemma DropBijective(s: Slots, f: Fd)
    requires s.Bijective() && f in s.chans
    ensures s.SlotOf(f) && s.Drop(f).Bijective()
  {
    var r, last := s.Drop(f), |s.pollfds| - 1;
    assert s.SlotOf(f) && s.ChannelOf(last) && s.ChannelOf(s.chans[f].index);
    forall g | g in r.chans
      ensures r.SlotOf(g)
    {
      assert s.SlotOf(g);
      assert s.ChannelOf(s.chans[g].index);
    }
    forall i | 0 <= i < |r.pollfds|
      ensures r.ChannelOf(i)
    {
      assert s.ChannelOf(i);
    }
  }

  /** poll(2) watches exactly the descriptors whose slots are not ignored, with their channels' masks. */
  lemma KernelSeesView(s: Slots, f: Fd, mask: Mask)
    requires s.Bijective()
    ensures (exists i | 0 <= i < |s.pollfds| :: s.pollfds[i].fd == f && s.pollfds[i].events == mask)
            <==> f in KernelList(s.View()) && KernelList(s.View())[f] == mask
  {
    if i :| 0 <= i < |s.pollfds| && s.pollfds[i].fd == f && s.pollfds[i].events == mask {
      assert s.ChannelOf(i) && s.SlotOf(f);
    }
    if f in KernelList(s.View()) && KernelList(s.View())[f] == mask {
      assert s.SlotOf(f);
      assert s.pollfds[s.chans[f].index].fd == f && s.pollfds[s.chans[f].index].events == mask;
    }
  }

  class PollPoller {
    var pollfds: seq<PollFd>
    var channels: map<Fd, Channel>
    ghost var owned: set<Channel>

    ghost predicate Named()
      reads this
    {
      forall f | f in channels :: channels[f] in owned && channels[f].fd == f
    }

    ghost function Snapshot(): Slots
      requires Named()
      reads this, owned
    {
      Slots(pollfds, map f | f in channels :: Registered(channels[f].events, channels[f].index))
    }

    ghost predicate Valid()
      reads this, owned
    {
      Named() && Snapshot().Bijective()
    }

    constructor ()
      ensures Valid() && channels == map[] && owned == {}
    {
      pollfds, channels, owned := [], map[], {};
    }

    /** A channel changes its mask and calls update(), which ends here. */
    method UpdateChannel(ch: Channel, mask: Mask)
      requires Valid()
      requires ch.index < 0 ==> ch.fd !in channels
      requires ch.index >= 0 ==> ch.fd in channels && channels[ch.fd] == ch
      modifies this, ch
      ensures Valid() && channels == old(channels)[ch.fd := ch] && owned == old(owned) + {ch}
      ensures ch.events == mask
      ensures Snapshot().View() == PollUpdate(old(Snapshot().View()), ch.fd, mask)
    {
      if ch.index < 0 {
        AddSlot(ch, mask);
      } else {
        SetSlot(ch, mask);
      }
    }

    method AddSlot(ch: Channel, mask: Mask)
      requires Valid() && ch.fd !in channels
      modifies this, ch
      ensures Valid() && channels == old(channels)[ch.fd := ch] && owned == old(owned) + {ch}
      ensures ch.events == mask
      ensures Snapshot().View() == PollUpdate(old(Snapshot().View()), ch.fd, mask)
    {
      hide Slots.Bijective, Slots.View, PollUpdate;
      ghost var s := Snapshot();
      AddIsUpdate(s, ch.fd, mask);
      ch.events := mask;
      pollfds := pollfds + [PollFd(ch.fd, ToShort(ch.events), 0)];
      ch.index := |pollfds| - 1;
      channels := channels[ch.fd := ch];
      owned := owned + {ch};
      assert Snapshot().chans == s.Add(ch.fd, mask).chans;
    }

    method SetSlot(ch: Channel, mask: Mask)
      requires Valid() && ch.fd in channels && channels[ch.fd] == ch
      modifies this, ch
      ensures Valid() && channels == old(channels)[ch.fd := ch] && owned == old(owned) + {ch}
      ensures ch.events == mask
      ensures Snapshot().View() == PollUpdate(old(Snapshot().View()), ch.fd, mask)
    {
      hide Slots.Bijective, Slots.View, PollUpdate;
      ghost var s := Snapshot();
      SetIsUpdate(s, ch.fd, mask);
      ch.events := mask;
      owned := owned + {ch};
      var slot := PollFd(ch.fd, ToShort(ch.events), 0);
      if ch.events == 0 {
        slot := slot.(fd := Ignored(ch.fd));
      }
      pollfds := pollfds[ch.index := slot];
      assert channels == old(channels)[ch.fd := ch];
      assert Snapshot().chans == s.Set(ch.fd, mask).chans;
    }

    /** Swap-removal; the channel in the last slot gets the freed index. */
    method RemoveChannel(ch: Channel)
      requires Valid()
      requires ch.fd in channels && channels[ch.fd] == ch
      requires ch.events == 0
      requires 0 <= ch.index < |pollfds| && pollfds[ch.index].fd == Ignored(ch.fd)
      modifies this, owned
      ensures Valid() && channels == old(channels) - {ch.fd} && owned == old(owned)
      ensures Snapshot().View() == Remove(old(Snapshot().View()), ch.fd)
      ensures |pollfds| == |old(pollfds)| - 1
    {
      hide Slots.Bijective, Slots.View, Remove;
      ghost var s := Snapshot();
      DropIsRemove(s, ch.fd);
      var idx := ch.index;
      var last := |pollfds| - 1;
      channels := channels - {ch.fd};
      assert Snapshot().chans == s.chans - {ch.fd};
      if idx == last {
        pollfds := pollfds[..last];
      } else {
        MoveLast(idx, last);
      }
      assert Snapshot() == s.Drop(ch.fd);
    }

    method MoveLast(idx: nat, last: nat)
      requires Named() && idx < last == |pollfds| - 1 && Decoded(pollfds[last].fd) in channels
      modifies this`pollfds, owned`index
      ensures Named() && pollfds == old(pollfds)[idx := old(pollfds)[last]][..last]
      ensures var moved := Decoded(old(pollfds)[last].fd);
              Snapshot().chans == old(Snapshot().chans)[moved := Registered(channels[moved].events, idx)]
    {
      var channelAtEnd := Decoded(pollfds[last].fd);
      pollfds := pollfds[idx := pollfds[last]][..last];
      channels[channelAtEnd].index := idx;
    }

    /** Hands out the channels whose slots the kernel marked, in slot order. */
    method FillActiveChannels(numEvents: nat) returns (active: seq<Channel>)
      requires Valid()
      requires numEvents == |Marked(pollfds)|
      requires forall i | 0 <= i < |pollfds| :: pollfds[i].revents > 0 ==> pollfds[i].fd >= 0
      modifies owned`revents
      ensures Valid() && Snapshot() == old(Snapshot())
      ensures |active| == numEvents
      ensures forall k | 0 <= k < |active| ::
                && Marked(pollfds)[k].fd in channels && active[k] == channels[Marked(pollfds)[k].fd]
                && active[k].revents == Marked(pollfds)[k].revents
    {
      hide Slots.View, Marked;
      var left := numEvents;
      active := [];
      var i := 0;
      NothingMarked(pollfds);
      while i < |pollfds| && left > 0
        invariant 0 <= i <= |pollfds| && Named() && Snapshot() == old(Snapshot())
        invariant |active| + left == numEvents && |active| == |Marked(pollfds[..i])|
        invariant Marked(pollfds[..i]) <= Marked(pollfds)
        invariant forall k | 0 <= k < |active| ::
                    && Marked(pollfds)[k].fd in channels && active[k] == channels[Marked(pollfds)[k].fd]
                    && active[k].revents == Marked(pollfds)[k].revents
      {
        MarkedSplit(pollfds, i);
        if pollfds[i].revents > 0 {
          left := left - 1;
          assert Snapshot().ChannelOf(i);
          var ch := channels[pollfds[i].fd];
          FreshSlot(Snapshot(), i);
          ch.revents := pollfds[i].revents;
          active := active + [ch];
        }
        i := i + 1;
      }
      assert pollfds[..|pollfds|] == pollfds;
    }
  }

  /** Two slots never name the same descriptor, so a channel is handed out once. */
  lemma FreshSlot(s: Slots, i: int)
    requires s.Bijective() && 0 <= i < |s.pollfds|
    ensures forall k | 0 <= k < |Marked(s.pollfds[..i])| :: Marked(s.pollfds[..i])[k].fd != s.pollfds[i].fd
  {
    var before := s.pollfds[..i];
    MarkedAreSlots(before);
    forall k | 0 <= k < |Marked(before)|
      ensures Marked(before)[k].fd != s.pollfds[i].fd
    {
      var j :| 0 <= j < i && before[j] == Marked(before)[k];
      assert s.ChannelOf(i) && s.ChannelOf(j);
    }
  }

  /** The slots with returned events. */
  function Marked(slots: seq<PollFd>): seq<PollFd> {
    if slots == [] then []
    else
      var n := |slots| - 1;
      Marked(slots[..n]) + (if slots[n].revents > 0 then [slots[n]] else [])
  }

  lemma NothingMarked(slots: seq<PollFd>)
    ensures Marked(slots[..0]) == []
  {
  }

  lemma {:induction false} MarkedAreSlots(slots: seq<PollFd>)
    ensures forall k | 0 <= k < |Marked(slots)| :: Marked(slots)[k] in slots && Marked(slots)[k].revents > 0
  {
    if slots == [] {
    } else {
      MarkedAreSlots(slots[..|slots| - 1]);
    }
  }

  lemma {:induction false} MarkedSplit(slots: seq<PollFd>, i: nat)
    requires i < |slots|
    ensures Marked(slots[..i + 1]) == Marked(slots[..i]) + (if slots[i].revents > 0 then [slots[i]] else [])
    ensures Marked(slots[..i + 1]) <= Marked(slots)
    decreases |slots| - i
  {
    assert slots[..i + 1][..i] == slots[..i];
    if i + 1 < |slots| {
      MarkedSplit(slots, i + 1);
    } else {
      assert slots[..i + 1] == slots;
    }
  }

  // ---- epoll(7) ------------------------------------------------------------------------------

  datatype Control = Add | Mod | Del

  /** The kernel lists exactly the watched descriptors, with their masks; the others want nothing. */
  predicate KernelMatches(t: Table, kernel: map<Fd, Mask>) {
    && kernel == KernelList(t)
    && (forall f | f in t && !t[f].watched :: t[f].mask == 0)
  }

  lemma KernelFollows(t: Table, kernel: map<Fd, Mask>, fd: Fd, mask: Mask)
    requires KernelMatches(t, kernel)
    ensures KernelMatches(EPollUpdate(t, fd, mask),
                          if fd in kernel && mask == 0 then kernel - {fd} else kernel[fd := mask])
    ensures KernelMatches(Remove(t, fd), kernel - {fd})
  {
  }

  class EPollPoller {
    var channels: map<Fd, Channel>
    var kernel: map<Fd, Mask>     // the interest list behind epollfd_
    ghost var owned: set<Channel>

    ghost predicate Named()
      reads this`channels, this`owned, owned
    {
      forall f | f in channels ::
        channels[f] in owned && channels[f].fd == f && (channels[f].index == ADDED || channels[f].index == DELETED)
    }

    ghost predicate Valid()
      reads this, owned
    {
      Named() && KernelMatches(View(), kernel)
    }

    ghost function View(): Table
      requires Named()
      reads this`channels, this`owned, owned
    {
      map f | f in channels :: Interest(channels[f].events, channels[f].index == ADDED)
    }

    constructor ()
      ensures Valid() && channels == map[] && kernel == map[] && owned == {}
    {
      channels, kernel, owned := map[], map[], {};
    }

    /** epoll_ctl; the requirements are those under which it does not fail with EEXIST or ENOENT. */
    method Update(operation: Control, ch: Channel)
      requires operation == Add <==> ch.fd !in kernel
      modifies this`kernel
      ensures kernel == if operation == Del then old(kernel) - {ch.fd} else old(kernel)[ch.fd := ch.events]
    {
      match operation {
        case Add => kernel := kernel[ch.fd := ch.events];
        case Mod => kernel := kernel[ch.fd := ch.events];
        case Del => kernel := kernel - {ch.fd};
      }
    }

    method UpdateChannel(ch: Channel, mask: Mask)
      requires Valid()
      requires ch.index == NEW ==> ch.fd !in channels
      requires ch.index != NEW ==> ch.fd in channels && channels[ch.fd] == ch
      modifies this, ch
      ensures Valid() && channels == old(channels)[ch.fd := ch] && owned == old(owned) + {ch}
      ensures ch.events == mask
      ensures View() == EPollUpdate(old(View()), ch.fd, mask)
    {
      ghost var t, k := View(), kernel;
      KernelFollows(t, k, ch.fd, mask);
      assert ch.index != NEW ==> (ch.index == ADDED <==> ch.fd in kernel);
      assert ch.index == NEW ==> ch.fd !in kernel;
      hide KernelMatches;
      var index := ch.index;
      if index == NEW || index == DELETED {
        Retag(ch, mask, ADDED);
        Update(Add, ch);
      } else if mask == 0 {
        Retag(ch, mask, DELETED);
        Update(Del, ch);
      } else {
        Retag(ch, mask, ADDED);
        Update(Mod, ch);
      }
    }

    /** The channel's new mask and tag, and its place in the channel map. */
    method Retag(ch: Channel, mask: Mask, tag: int)
      requires Named() && (tag == ADDED || tag == DELETED)
      requires ch.fd in channels ==> channels[ch.fd] == ch
      modifies this`channels, this`owned, ch`events, ch`index
      ensures Named() && channels == old(channels)[ch.fd := ch] && owned == old(owned) + {ch}
      ensures ch.events == mask
      ensures View() == old(View())[ch.fd := Interest(mask, tag == ADDED)]
    {
      ch.events := mask;
      ch.index := tag;
      owned := owned + {ch};
      channels := channels[ch.fd := ch];
    }

    method RemoveChannel(ch: Channel)
      requires Valid()
      requires ch.fd in channels && channels[ch.fd] == ch && ch.events == 0
      modifies this, ch
      ensures Valid() && channels == old(channels) - {ch.fd} && owned == old(owned)
      ensures ch.index == NEW && View() == Remove(old(View()), ch.fd)
    {
      ghost var t, k := View(), kernel;
      KernelFollows(t, k, ch.fd, 0);
      assert ch.index == ADDED <==> ch.fd in kernel;
      hide KernelMatches;
      channels := channels - {ch.fd};
      if ch.index == ADDED {
        Update(Del, ch);
      } else {
        assert kernel - {ch.fd} == kernel;
      }
      ch.index := NEW;
      assert View() == Remove(t, ch.fd);
    }
  }

  // ---- the two pollers side by side ----------------------------------------------------------

  datatype Op = Change(fd: Fd, mask: Mask) | Unregister(fd: Fd)

  predicate PollAllows(t: Table, op: Op) {
    op.Unregister? ==> op.fd in t && t[op.fd] == Interest(0, false)
  }

  predicate EPollAllows(t: Table, op: Op) {
    op.Unregister? ==> op.fd in t && t[op.fd].mask == 0
  }

  function PollDo(t: Table, op: Op): Table {
    match op
    case Change(fd, mask) => PollUpdate(t, fd, mask)
    case Unregister(fd) => Remove(t, fd)
  }

  function EPollDo(t: Table, op: Op): Table {
    match op
    case Change(fd, mask) => EPollUpdate(t, fd, mask)
    case Unregister(fd) => Remove(t, fd)
  }

  predicate PollLegal(t: Table, ops: seq<Op>)
    decreases |ops|
  {
    ops == [] || (PollAllows(t, ops[0]) && PollLegal(PollDo(t, ops[0]), ops[1..]))
  }

  predicate EPollLegal(t: Table, ops: seq<Op>)
    decreases |ops|
  {
    ops == [] || (EPollAllows(t, ops[0]) && EPollLegal(EPollDo(t, ops[0]), ops[1..]))
  }

  function PollRun(t: Table, ops: seq<Op>): Table
    decreases |ops|
  {
    if ops == [] then t else PollRun(PollDo(t, ops[0]), ops[1..])
  }

  function EPollRun(t: Table, ops: seq<Op>): Table
    decreases |ops|
  {
    if ops == [] then t else EPollRun(EPollDo(t, ops[0]), ops[1..])
  }

  /** The descriptors watched for some event. */
  function Watching(t: Table): map<Fd, Mask> {
    map f | f in t && t[f].watched && t[f].mask != 0 :: t[f].mask
  }

  /** The descriptors whose channels want some event. */
  function Wanted(t: Table): map<Fd, Mask> {
    map f | f in t && t[f].mask != 0 :: t[f].mask
  }

  /** Same channels, same masks, and nothing wanted goes unwatched. */
  predicate Similar(p: Table, e: Table) {
    && p.Keys == e.Keys
    && forall f | f in p :: p[f].mask == e[f].mask && (p[f].mask != 0 ==> p[f].watched && e[f].watched)
  }

  lemma StepKeepsSimilar(p: Table, e: Table, op: Op)
    requires Similar(p, e) && PollAllows(p, op)
    ensures EPollAllows(e, op) && Similar(PollDo(p, op), EPollDo(e, op))
  {
  }

  lemma {:induction false} RunKeepsSimilar(p: Table, e: Table, ops: seq<Op>)
    requires Similar(p, e) && PollLegal(p, ops)
    ensures EPollLegal(e, ops) && Similar(PollRun(p, ops), EPollRun(e, ops))
    decreases |ops|
  {
    if ops == [] {
    } else {
      StepKeepsSimilar(p, e, ops[0]);
      RunKeepsSimilar(PollDo(p, ops[0]), EPollDo(e, ops[0]), ops[1..]);
    }
  }

  /** Every run PollPoller accepts, EPollPoller accepts, and both watch exactly what the channels want. */
  lemma SameWatch(ops: seq<Op>)
    requires PollLegal(map[], ops)
    ensures EPollLegal(map[], ops)
    ensures Watching(PollRun(map[], ops)) == Watching(EPollRun(map[], ops)) == Wanted(PollRun(map[], ops))
  {
    RunKeepsSimilar(map[], map[], ops);
    var p, e := PollRun(map[], ops), EPollRun(map[], ops);
    assert Watching(p) == Wanted(p) == Watching(e);
  }

  /** What the last operation on a descriptor asks for: a mask, or nothing once it is unregistered. */
  function LastRequest(before: Option<Mask>, ops: seq<Op>, f: Fd): Option<Mask>
    decreases |ops|
  {
    if ops == [] then before
    else if ops[0].fd != f then LastRequest(before, ops[1..], f)
    else LastRequest(if ops[0].Change? then Some(ops[0].mask) else None, ops[1..], f)
  }

  function Request(t: Table, f: Fd): Option<Mask> {
    if f in t then Some(t[f].mask) else None
  }

  predicate WatchedIfWanted(t: Table, f: Fd) {
    f in t && t[f].mask != 0 ==> t[f].watched
  }

  lemma {:induction false} RunHoldsRequest(p: Table, e: Table, ops: seq<Op>, f: Fd)
    requires Request(p, f) == Request(e, f) && WatchedIfWanted(p, f) && WatchedIfWanted(e, f)
    ensures Request(PollRun(p, ops), f) == Request(EPollRun(e, ops), f) == LastRequest(Request(p, f), ops, f)
    ensures WatchedIfWanted(PollRun(p, ops), f) && WatchedIfWanted(EPollRun(e, ops), f)
    decreases |ops|
  {
    if ops == [] {
    } else {
      RunHoldsRequest(PollDo(p, ops[0]), EPollDo(e, ops[0]), ops[1..], f);
    }
  }

  /** After every run both pollers watch a descriptor exactly for the events last asked for, if any. */
  lemma WatchesLastRequest(ops: seq<Op>, f: Fd, mask: Mask)
    ensures var asked := LastRequest(None, ops, f) == Some(mask) && mask != 0;
            var p, e := Watching(PollRun(map[], ops)), Watching(EPollRun(map[], ops));
            && (f in p && p[f] == mask <==> asked)
            && (f in e && e[f] == mask <==> asked)
  {
    RunHoldsRequest(map[], map[], ops, f);
  }

  /** Disabling a channel that is registered and disabled already. */
  predicate Redundant(t: Table, op: Op) {
    op.Change? && op.mask == 0 && op.fd in t && !t[op.fd].watched
  }

  predicate NeverRedundant(t: Table, ops: seq<Op>)
    decreases |ops|
  {
    ops == [] || (!Redundant(t, ops[0]) && NeverRedundant(PollDo(t, ops[0]), ops[1..]))
  }

  ghost predicate EqualThroughout(t: Table, ops: seq<Op>) {
    forall n | 0 <= n <= |ops| :: KernelList(PollRun(t, ops[..n])) == KernelList(EPollRun(t, ops[..n]))
  }

  lemma OneStepEqual(t: Table, op: Op)
    ensures PollDo(t, op) == EPollDo(t, op) <==> !Redundant(t, op)
    ensures KernelList(PollDo(t, op)) == KernelList(EPollDo(t, op)) <==> !Redundant(t, op)
  {
    if Redundant(t, op) {
      assert op.fd in KernelList(EPollDo(t, op)) && op.fd !in KernelList(PollDo(t, op));
    } else {
      assert PollDo(t, op) == EPollDo(t, op);
    }
  }

  lemma RunPrefix(t: Table, ops: seq<Op>, n: nat)
    requires 0 < n <= |ops|
    ensures PollRun(t, ops[..n]) == PollRun(PollDo(t, ops[0]), ops[1..][..n - 1])
    ensures EPollRun(t, ops[..n]) == EPollRun(EPollDo(t, ops[0]), ops[1..][..n - 1])
  {
    assert ops[..n][1..] == ops[1..][..n - 1];
  }

  /**
   The kernel lists, empty masks included, are equal after every prefix of a run if and only if no
   operation of the run disables a channel that is disabled already.
   */
  lemma {:induction false} ListsStayEqual(t: Table, ops: seq<Op>)
    ensures EqualThroughout(t, ops) <==> NeverRedundant(t, ops)
    decreases |ops|
  {
    if ops == [] {
    } else {
      var op, rest := ops[0], ops[1..];
      OneStepEqual(t, op);
      var p, e := PollDo(t, op), EPollDo(t, op);
      hide PollDo, EPollDo, Redundant, KernelList;
      RunPrefix(t, ops, 1);
      assert rest[..0] == [] && PollRun(t, ops[..1]) == p && EPollRun(t, ops[..1]) == e;
      if p == e {
        ListsStayEqual(p, rest);
        if EqualThroughout(t, ops) {
          forall n | 0 <= n <= |rest|
            ensures KernelList(PollRun(p, rest[..n])) == KernelList(EPollRun(p, rest[..n]))
          {
            RunPrefix(t, ops, n + 1);
          }
        }
        if EqualThroughout(p, rest) {
          forall n | 0 <= n <= |ops|
            ensures KernelList(PollRun(t, ops[..n])) == KernelList(EPollRun(t, ops[..n]))
          {
            if n > 0 {
              RunPrefix(t, ops, n);
            }
          }
        }
      }
    }
  }

  /** Disabling twice: epoll watches the descriptor for errors again, poll does not. */
  lemma SecondDisableRegisters(fd: Fd, mask: Mask)
    requires mask != 0
    ensures var ops := [Change(fd, mask), Change(fd, 0), Change(fd, 0)];
            && PollRun(map[], ops) == map[fd := Interest(0, false)]
            && EPollRun(map[], ops) == map[fd := Interest(0, true)]
  {
    var a, b := Change(fd, mask), Change(fd, 0);
    assert [a, b, b][1..] == [b, b] && [b, b][1..] == [b] && [b][1..] == [];
    var p1 := PollDo(map[], a);
    var p2 := PollDo(p1, b);
    assert PollRun(p2, [b]) == PollDo(p2, b);
    assert PollRun(p1, [b, b]) == PollRun(p2, [b]);
    assert PollRun(map[], [a, b, b]) == PollRun(p1, [b, b]);
    var e1 := EPollDo(map[], a);
    var e2 := EPollDo(e1, b);
    assert EPollRun(e2, [b]) == EPollDo(e2, b);
    assert EPollRun(e1, [b, b]) == EPollRun(e2, [b]);
    assert EPollRun(map[], [a, b, b]) == EPollRun(e1, [b, b]);
  }

  // ---- what only one of them accepts ---------------------------------------------------------

  /** The channels some operation has updated since they were last unregistered. */
  function Known(known: set<Fd>, op: Op): set<Fd> {
    if op.Change? then known + {op.fd} else known - {op.fd}
  }

  /** Those whose only update since then asked for no events. */
  function Bare(known: set<Fd>, bare: set<Fd>, op: Op): set<Fd> {
    if op.Change? && op.mask == 0 && op.fd !in known then bare + {op.fd} else bare - {op.fd}
  }

  predicate NeverUnregistersBare(known: set<Fd>, bare: set<Fd>, ops: seq<Op>)
    decreases |ops|
  {
    || ops == []
    || (&& (ops[0].Unregister? ==> ops[0].fd !in bare)
        && NeverUnregistersBare(Known(known, ops[0]), Bare(known, bare, ops[0]), ops[1..]))
  }

  /** The channels PollPoller watches without events: the slot is live although nothing is wanted. */
  function IdleButWatched(p: Table): set<Fd> {
    set f | f in p && p[f] == Interest(0, true)
  }

  lemma StepTracksBare(p: Table, op: Op)
    requires forall f | f in p :: p[f].mask != 0 ==> p[f].watched
    ensures PollDo(p, op).Keys == Known(p.Keys, op)
    ensures IdleButWatched(PollDo(p, op)) == Bare(p.Keys, IdleButWatched(p), op)
  {
  }

  lemma {:induction false} PollAcceptsExactlyFrom(p: Table, e: Table, ops: seq<Op>)
    requires Similar(p, e)
    ensures PollLegal(p, ops) <==> EPollLegal(e, ops) && NeverUnregistersBare(p.Keys, IdleButWatched(p), ops)
    decreases |ops|
  {
    if ops == [] {
    } else {
      var op, rest := ops[0], ops[1..];
      assert PollAllows(p, op) <==> EPollAllows(e, op) && (op.Unregister? ==> op.fd !in IdleButWatched(p));
      StepTracksBare(p, op);
      if PollAllows(p, op) {
        StepKeepsSimilar(p, e, op);
        PollAcceptsExactlyFrom(PollDo(p, op), EPollDo(e, op), rest);
      }
    }
  }

  /**
   PollPoller accepts a run if and only if EPollPoller does and no operation unregisters a channel
   whose only update was one without events.
   */
  lemma PollAcceptsExactly(ops: seq<Op>)
    ensures PollLegal(map[], ops) <==> EPollLegal(map[], ops) && NeverUnregistersBare({}, {}, ops)
  {
    var none: Table := map[];
    PollAcceptsExactlyFrom(none, none, ops);
    assert none.Keys == {} && IdleButWatched(none) == {};
  }

  /** An acceptor that never listened: disabled and removed, which only EPollPoller accepts. */
  lemma EmptyFirstUpdateStays(fd: Fd)
    ensures var ops := [Change(fd, 0), Unregister(fd)];
            EPollLegal(map[], ops) && !PollLegal(map[], ops)
    ensures PollLegal(map[], [Change(fd, 0), Change(fd, 0), Unregister(fd)])
  {
    var a, b := Change(fd, 0), Unregister(fd);
    assert [a, a, b][1..] == [a, b] && [a, b][1..] == [b] && [b][1..] == [];
    var once := map[fd := Interest(0, true)];
    assert PollDo(map[], a) == EPollDo(map[], a) == once;
    var twice := PollDo(once, a);
    assert PollLegal(twice, [b]);
    assert PollLegal(once, [a, b]);
  }
}
