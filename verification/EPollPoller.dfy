/** Channel event masks, the poller's bookkeeping and the kernel's interest set
    (src/net/poller/EPollPoller.cc, src/net/Channel.h). Channels have distinct descriptors. */
module PollerModel {
  import Runs

  type Fd = int
  /** A mask is the set of its bits. */
  datatype Flag = EpollIn | EpollPri | EpollOut
  type Events = set<Flag>

  const NONE_EVENT: Events := {}
  const READ_EVENT: Events := {EpollIn, EpollPri}
  const WRITE_EVENT: Events := {EpollOut}

  datatype Index = New | Added | Deleted

  datatype Chan = Chan(events: Events, index: Index)

  datatype Ctl = CtlAdd | CtlMod | CtlDel

  /** The channels by descriptor, the keys of `channels_`, the kernel's interest set, and how many
      epoll_ctl calls the kernel has refused. */
  datatype Poller = Poller(chans: map<Fd, Chan>, known: set<Fd>, interest: map<Fd, Events>, refused: nat)

  const START := Poller(map[], {}, map[], 0)

  /** The kernel accepts an ADD only of an absent descriptor, a MOD or DEL only of a present one. */
  predicate KernelAccepts(interest: map<Fd, Events>, op: Ctl, fd: Fd) {
    op.CtlAdd? <==> fd !in interest
  }

  function EpollCtl(p: Poller, op: Ctl, fd: Fd): Poller
    requires fd in p.chans
  {
    if !KernelAccepts(p.interest, op, fd) then p.(refused := p.refused + 1)
    else if op.CtlDel? then p.(interest := p.interest - {fd})
    else p.(interest := p.interest[fd := p.chans[fd].events])
  }

  function SetIndex(p: Poller, fd: Fd, index: Index): Poller
    requires fd in p.chans
  {
    p.(chans := p.chans[fd := p.chans[fd].(index := index)])
  }

  function UpdateChannel(p: Poller, fd: Fd): Poller
    requires fd in p.chans
  {
    if !p.chans[fd].index.Added? then
      var q := if p.chans[fd].index.New? then p.(known := p.known + {fd}) else p;
      EpollCtl(SetIndex(q, fd, Added), CtlAdd, fd)
    else if p.chans[fd].events == NONE_EVENT then
      SetIndex(EpollCtl(p, CtlDel, fd), fd, Deleted)
    else
      EpollCtl(p, CtlMod, fd)
  }

  function RemoveChannel(p: Poller, fd: Fd): Poller
    requires fd in p.chans
  {
    var q := p.(known := p.known - {fd});
    var r := if p.chans[fd].index.Added? then EpollCtl(q, CtlDel, fd) else q;
    SetIndex(r, fd, New)
  }

  // ---------------------------------------------------------------- runs

  datatype Change = EnableReading | DisableReading | EnableWriting | DisableWriting | DisableAll

  function Masked(events: Events, change: Change): Events {
    match change
    case EnableReading => events + READ_EVENT
    case DisableReading => events - READ_EVENT
    case EnableWriting => events + WRITE_EVENT
    case DisableWriting => events - WRITE_EVENT
    case DisableAll => events * NONE_EVENT
  }

  predicate IsWriting(events: Events) {
    EpollOut in events
  }

  predicate IsReading(events: Events) {
    EpollIn in events || EpollPri in events
  }

  function ChangeEvents(p: Poller, fd: Fd, change: Change): Poller
    requires fd in p.chans
  {
    UpdateChannel(p.(chans := p.chans[fd := p.chans[fd].(events := Masked(p.chans[fd].events, change))]), fd)
  }

  /** A channel is made for a descriptor no channel has, and destroyed after it was removed. */
  datatype Step = Open(fd: Fd) | ChangeStep(fd: Fd, change: Change) | Remove(fd: Fd) | Destroy(fd: Fd)

  predicate Enabled(p: Poller, step: Step) {
    match step
    case Open(fd) => fd !in p.chans
    case ChangeStep(fd, _) => fd in p.chans
    case Remove(fd) => fd in p.chans
    case Destroy(fd) => fd in p.chans && p.chans[fd].index.New?
  }

  function Apply(p: Poller, step: Step): Poller
    requires Enabled(p, step)
  {
    match step
    case Open(fd) => p.(chans := p.chans[fd := Chan(NONE_EVENT, New)])
    case ChangeStep(fd, change) => ChangeEvents(p, fd, change)
    case Remove(fd) => RemoveChannel(p, fd)
    case Destroy(fd) => p.(chans := p.chans - {fd})
  }

  predicate Next(p: Poller, step: Step, p': Poller) {
    Enabled(p, step) && p' == Apply(p, step)
  }

  predicate AgreesAt(p: Poller, fd: Fd) {
    && (fd in p.interest <==> fd in p.chans && p.chans[fd].index.Added?)
    && (fd in p.interest && fd in p.chans ==> p.interest[fd] == p.chans[fd].events)
    && (fd in p.known <==> fd in p.chans && !p.chans[fd].index.New?)
  }

  /** Bookkeeping and kernel agree on every descriptor, and the kernel has refused nothing. */
  ghost predicate Agrees(p: Poller) {
    (forall fd :: AgreesAt(p, fd)) && p.refused == 0
  }

  lemma ChangeKeeps(p: Poller, fd: Fd, change: Change)
    requires Agrees(p) && fd in p.chans
    ensures Agrees(ChangeEvents(p, fd, change))
  {
    assert AgreesAt(p, fd);
    forall g
      ensures AgreesAt(ChangeEvents(p, fd, change), g)
    {
      assert AgreesAt(p, g);
    }
  }

  lemma RemoveKeeps(p: Poller, fd: Fd)
    requires Agrees(p) && fd in p.chans
    ensures Agrees(RemoveChannel(p, fd))
  {
    assert AgreesAt(p, fd);
    forall g
      ensures AgreesAt(RemoveChannel(p, fd), g)
    {
      assert AgreesAt(p, g);
    }
  }

  lemma StepKeeps(p: Poller, step: Step)
    requires Agrees(p) && Enabled(p, step)
    ensures Agrees(Apply(p, step))
  {
    match step
    case ChangeStep(fd, change) => ChangeKeeps(p, fd, change);
    case Remove(fd) => RemoveKeeps(p, fd);
    case Open(fd) =>
      forall g ensures AgreesAt(Apply(p, step), g) { assert AgreesAt(p, g); }
    case Destroy(fd) =>
      forall g ensures AgreesAt(Apply(p, step), g) { assert AgreesAt(p, g); }
  }

  lemma RunAgrees(steps: seq<Step>, ps: seq<Poller>, n: nat)
    requires Runs.IsRun(START, Next, steps, ps) && n < |ps|
    ensures Agrees(ps[n])
  {
    forall p, step, p' | Agrees(p) && Next(p, step, p')
      ensures Agrees(p')
    {
      StepKeeps(p, step);
    }
    Runs.Invariant(START, Next, steps, ps, Agrees, n);
  }

  /** For every sequence of enables, disables and removals: the kernel watches exactly the added
      channels, each with its current mask; `channels_` holds exactly those that are not new; and
      no ADD, MOD or DEL is ever refused. */
  lemma InterestIsExact(steps: seq<Step>, ps: seq<Poller>, n: nat)
    requires Runs.IsRun(START, Next, steps, ps) && n < |ps|
    ensures var p := ps[n];
            && p.interest == (map fd | fd in p.chans && p.chans[fd].index.Added? :: p.chans[fd].events)
            && p.known == (set fd | fd in p.chans && !p.chans[fd].index.New?)
            && p.refused == 0
  {
    RunAgrees(steps, ps, n);
    var p := ps[n];
    forall fd | fd in p.interest || fd in p.chans || fd in p.known
      ensures fd in p.interest <==> fd in p.chans && p.chans[fd].index.Added?
      ensures fd in p.interest ==> p.interest[fd] == p.chans[fd].events
      ensures fd in p.known <==> fd in p.chans && !p.chans[fd].index.New?
    {
      assert AgreesAt(p, fd);
    }
  }

  /** What each operation does to each bit of a mask. */
  lemma MasksBitByBit(events: Events, change: Change)
    ensures EpollIn in Masked(events, change) <==>
              change.EnableReading? || (EpollIn in events && !change.DisableReading? && !change.DisableAll?)
    ensures EpollPri in Masked(events, change) <==>
              change.EnableReading? || (EpollPri in events && !change.DisableReading? && !change.DisableAll?)
    ensures EpollOut in Masked(events, change) <==>
              change.EnableWriting? || (EpollOut in events && !change.DisableWriting? && !change.DisableAll?)
  {
  }

  /** Over every run, after any change the kernel watches a channel for exactly the bits the change
      leaves, unless the change has silenced it. */
  lemma KernelWatchesTheMask(steps: seq<Step>, ps: seq<Poller>, i: nat, fd: Fd, change: Change)
    requires Runs.IsRun(START, Next, steps, ps) && i < |steps| && steps[i] == ChangeStep(fd, change)
    ensures change.EnableReading? ==> fd in ps[i + 1].interest && {EpollIn, EpollPri} <= ps[i + 1].interest[fd]
    ensures change.EnableWriting? ==> fd in ps[i + 1].interest && EpollOut in ps[i + 1].interest[fd]
    ensures fd in ps[i + 1].interest && change.DisableReading? ==> {EpollIn, EpollPri} !! ps[i + 1].interest[fd]
    ensures fd in ps[i + 1].interest && change.DisableWriting? ==> EpollOut !in ps[i + 1].interest[fd]
    ensures fd in ps[i + 1].interest && change.DisableAll? ==> ps[i + 1].interest[fd] == {}
  {
    assert Next(ps[i], steps[i], ps[i + 1]);
    RunAgrees(steps, ps, i);
    RunAgrees(steps, ps, i + 1);
    WatchedIff(ps[i], fd, change);
    MasksBitByBit(ps[i].chans[fd].events, change);
    assert AgreesAt(ps[i + 1], fd);
    assert ps[i + 1].chans[fd].events == Masked(ps[i].chans[fd].events, change);
  }

  /** The kernel refuses to add what it watches and to change or delete what it does not. */
  lemma KernelRefusesIff(p: Poller, op: Ctl, fd: Fd)
    requires fd in p.chans
    ensures EpollCtl(p, op, fd).refused > p.refused <==> (if fd in p.interest then op == CtlAdd else op != CtlAdd)
  {
  }

  /** Removing a channel makes poller and kernel forget it, and leaves the others alone. */
  lemma RemoveForgets(p: Poller, fd: Fd)
    requires Agrees(p) && fd in p.chans
    ensures var q := RemoveChannel(p, fd);
            && fd !in q.interest && fd !in q.known && fd in q.chans && q.chans[fd] == Chan(p.chans[fd].events, New)
            && forall g :: g != fd ==>
                 && (g in q.chans <==> g in p.chans) && (g in q.chans && g in p.chans ==> q.chans[g] == p.chans[g])
                 && (g in q.interest <==> g in p.interest) && (g in q.known <==> g in p.known)
  {
    assert AgreesAt(p, fd);
  }

  /** What a mask operation does to the two questions a channel answers. */
  lemma MasksAreIndependent(events: Events, change: Change)
    ensures IsWriting(Masked(events, change)) <==>
              change.EnableWriting? || (!change.DisableWriting? && !change.DisableAll? && IsWriting(events))
    ensures IsReading(Masked(events, change)) <==>
              change.EnableReading? || (!change.DisableReading? && !change.DisableAll? && IsReading(events))
  {
  }

  /** A channel is watched after a change of its mask exactly when it was not watched before or its
      new mask has an event: only the change that silences a watched channel takes it out. */
  lemma WatchedIff(p: Poller, fd: Fd, change: Change)
    requires Agrees(p) && fd in p.chans
    ensures fd in ChangeEvents(p, fd, change).interest <==>
              !p.chans[fd].index.Added? || Masked(p.chans[fd].events, change) != NONE_EVENT
  {
    ChangeKeeps(p, fd, change);
    assert AgreesAt(ChangeEvents(p, fd, change), fd);
  }

  /** So the kernel is told to watch for nothing exactly when a change leaves a channel without
      events that was not watched before it: one that is new, or was already silenced. */
  lemma WatchedForNothingIff(steps: seq<Step>, ps: seq<Poller>, i: nat, fd: Fd, change: Change)
    requires Runs.IsRun(START, Next, steps, ps) && i < |steps| && steps[i] == ChangeStep(fd, change)
    ensures fd in ps[i].chans
    ensures (fd in ps[i + 1].interest && ps[i + 1].interest[fd] == NONE_EVENT) <==>
              !ps[i].chans[fd].index.Added? && Masked(ps[i].chans[fd].events, change) == NONE_EVENT
  {
    assert Next(ps[i], steps[i], ps[i + 1]);
    RunAgrees(steps, ps, i);
    RunAgrees(steps, ps, i + 1);
    WatchedIff(ps[i], fd, change);
    assert AgreesAt(ps[i + 1], fd);
  }

  /** Both happen: disabling twice brings a channel back, and so does disabling a new one. */
  lemma SilentChannelComesBack(fd: Fd) returns (steps: seq<Step>, ps: seq<Poller>)
    ensures Runs.IsRun(START, Next, steps, ps) && |steps| == 4
    ensures fd !in ps[3].interest && steps[3] == ChangeStep(fd, DisableAll)
    ensures fd in ps[4].interest && ps[4].interest[fd] == NONE_EVENT
  {
    steps := [Open(fd), ChangeStep(fd, EnableReading), ChangeStep(fd, DisableAll), ChangeStep(fd, DisableAll)];
    var p1 := Apply(START, steps[0]);
    var p2 := Apply(p1, steps[1]);
    var p3 := Apply(p2, steps[2]);
    var p4 := Apply(p3, steps[3]);
    ps := [START, p1, p2, p3, p4];
    assert Next(START, steps[0], p1) && Next(p1, steps[1], p2) && Next(p2, steps[2], p3) && Next(p3, steps[3], p4);
  }

  lemma NewChannelIsWatchedForNothing(fd: Fd) returns (steps: seq<Step>, ps: seq<Poller>)
    ensures Runs.IsRun(START, Next, steps, ps) && steps == [Open(fd), ChangeStep(fd, DisableAll)]
    ensures fd in ps[2].interest && ps[2].interest[fd] == NONE_EVENT
  {
    steps := [Open(fd), ChangeStep(fd, DisableAll)];
    var p1 := Apply(START, steps[0]);
    var p2 := Apply(p1, steps[1]);
    ps := [START, p1, p2];
    assert Next(START, steps[0], p1) && Next(p1, steps[1], p2);
  }

  /** Where a sequence of steps leads; a step that is not enabled is left out. */
  function Replayed(steps: seq<Step>): Poller {
    if steps == [] then START
    else
      var p := Replayed(steps[..|steps| - 1]);
      if Enabled(p, steps[|steps| - 1]) then Apply(p, steps[|steps| - 1]) else p
  }

  lemma ReplayedMore(steps: seq<Step>, n: nat)
    requires n < |steps|
    ensures var p := Replayed(steps[..n]);
            Replayed(steps[..n + 1]) == if Enabled(p, steps[n]) then Apply(p, steps[n]) else p
  {
    assert steps[..n + 1][..n] == steps[..n];
  }
}

/** The same poller over channel objects, as the source has it. */
module EPollPollerObject {
  import opened PollerModel

  class Channel {
    const fd: Fd
    var events: Events
    var index: Index

    constructor (fd: Fd)
      ensures this.fd == fd && events == NONE_EVENT && index == New
    {
      this.fd, events, index := fd, NONE_EVENT, New;
    }
  }

  class EPollPoller {
    var channels: map<Fd, Channel>
    // The kernel's side.
    var interest: map<Fd, Events>
    var refused: nat
    // Every channel object of this loop by descriptor, and their values.
    ghost var all: map<Fd, Channel>
    ghost var chans: map<Fd, Chan>

    ghost predicate Valid()
      reads this, all.Values
    {
      && all.Keys == chans.Keys
      && (forall fd :: fd in all ==> all[fd].fd == fd && chans[fd] == Chan(all[fd].events, all[fd].index))
      && (forall fd :: fd in channels ==> fd in all && channels[fd] == all[fd])
    }

    ghost function View(): Poller
      reads this
    {
      Poller(chans, channels.Keys, interest, refused)
    }

    constructor ()
      ensures Valid() && all == map[] && View() == START
    {
      channels, interest, refused, all, chans := map[], map[], 0, map[], map[];
    }

    /** A channel made for a descriptor that has none. */
    method Open(fd: Fd) returns (ch: Channel)
      requires Valid() && fd !in all
      modifies this`all, this`chans
      ensures Valid() && fresh(ch) && all == old(all)[fd := ch] && ch.fd == fd
      ensures View() == Apply(old(View()), Step.Open(fd))
    {
      ch := new Channel(fd);
      all := all[fd := ch];
      chans := chans[fd := Chan(NONE_EVENT, New)];
    }

    /** The end of a channel that was removed, or never added. */
    method Destroy(ch: Channel)
      requires Valid() && ch.fd in all && all[ch.fd] == ch && ch.index.New? && ch.fd !in channels
      modifies this`all, this`chans
      ensures Valid() && all == old(all) - {ch.fd}
      ensures View() == Apply(old(View()), Step.Destroy(ch.fd))
    {
      all := all - {ch.fd};
      chans := chans - {ch.fd};
    }

    method SetIndex(ch: Channel, index: Index)
      requires Valid() && ch.fd in all && all[ch.fd] == ch
      modifies this`chans, ch
      ensures Valid() && ch.events == old(ch.events) && ch.index == index
      ensures View() == PollerModel.SetIndex(old(View()), ch.fd, index)
    {
      ch.index := index;
      chans := chans[ch.fd := Chan(ch.events, index)];
    }

    method Update(op: Ctl, ch: Channel)
      requires Valid() && ch.fd in all && all[ch.fd] == ch
      modifies this`interest, this`refused
      ensures Valid() && View() == EpollCtl(old(View()), op, ch.fd)
    {
      if op.CtlAdd? != (ch.fd !in interest) {
        refused := refused + 1;
      } else if op.CtlDel? {
        interest := interest - {ch.fd};
      } else {
        interest := interest[ch.fd := ch.events];
      }
    }

    method UpdateChannel(ch: Channel)
      requires Valid() && ch.fd in all && all[ch.fd] == ch
      modifies this`channels, this`interest, this`refused, this`chans, ch
      ensures Valid() && View() == PollerModel.UpdateChannel(old(View()), ch.fd)
    {
      if ch.index.New? || ch.index.Deleted? {
        Register(ch);
      } else if ch.events == NONE_EVENT {
        Update(CtlDel, ch);
        SetIndex(ch, Deleted);
      } else {
        Update(CtlMod, ch);
      }
    }

    /** The branch for a channel the kernel does not watch. */
    method Register(ch: Channel)
      requires Valid() && ch.fd in all && all[ch.fd] == ch && !ch.index.Added?
      modifies this`channels, this`interest, this`refused, this`chans, ch
      ensures Valid() && View() == PollerModel.UpdateChannel(old(View()), ch.fd)
    {
      if ch.index.New? {
        Remember(ch);
      }
      SetIndex(ch, Added);
      Update(CtlAdd, ch);
    }

    method Remember(ch: Channel)
      requires Valid() && ch.fd in all && all[ch.fd] == ch
      modifies this`channels
      ensures Valid() && View() == old(View()).(known := old(View()).known + {ch.fd})
    {
      channels := channels[ch.fd := ch];
      assert channels.Keys == old(channels).Keys + {ch.fd};
    }

    method RemoveChannel(ch: Channel)
      requires Valid() && ch.fd in all && all[ch.fd] == ch
      modifies this`channels, this`interest, this`refused, this`chans, ch
      ensures Valid() && View() == PollerModel.RemoveChannel(old(View()), ch.fd)
    {
      channels := channels - {ch.fd};
      if ch.index.Added? {
        Update(CtlDel, ch);
      }
      SetIndex(ch, New);
    }

    /** The channel's enable and disable calls, each followed by update(). */
    method ChangeEvents(ch: Channel, change: Change)
      requires Valid() && ch.fd in all && all[ch.fd] == ch
      modifies this`channels, this`interest, this`refused, this`chans, ch
      ensures Valid() && View() == PollerModel.ChangeEvents(old(View()), ch.fd, change)
    {
      ch.events := Masked(ch.events, change);
      chans := chans[ch.fd := Chan(ch.events, ch.index)];
      UpdateChannel(ch);
    }
  }

  method TakeStep(p: EPollPoller, mine: map<Fd, Channel>, step: Step) returns (mine': map<Fd, Channel>)
    requires p.Valid() && Agrees(p.View()) && mine == p.all && Enabled(p.View(), step)
    modifies p, mine.Values
    ensures p.Valid() && p.View() == Apply(old(p.View()), step) && Agrees(p.View())
    ensures mine' == p.all && fresh(mine'.Values - mine.Values)
  {
    mine' := mine;
    StepKeeps(p.View(), step);
    assert AgreesAt(p.View(), step.fd);
    match step {
      case Open(fd) =>
        var ch := p.Open(fd);
        mine' := mine[fd := ch];
      case ChangeStep(fd, change) => p.ChangeEvents(mine[fd], change);
      case Remove(fd) => p.RemoveChannel(mine[fd]);
      case Destroy(fd) =>
        p.Destroy(mine[fd]);
        mine' := mine - {fd};
    }
  }

  /** A client that opens, changes, removes and destroys channels in any order leaves the poller and
      the kernel where the model's run leaves them. */
  method Replay(steps: seq<Step>) returns (p: EPollPoller)
    ensures fresh(p) && p.Valid() && p.View() == Replayed(steps) && Agrees(p.View())
  {
    p := new EPollPoller();
    var mine: map<Fd, Channel> := map[];
    for i := 0 to |steps|
      invariant fresh(p) && fresh(mine.Values) && mine == p.all
      invariant p.Valid() && p.View() == Replayed(steps[..i]) && Agrees(p.View())
    {
      ReplayedMore(steps, i);
      var step := steps[i];
      var known := step.fd in mine;
      if (step.Open? && !known) || (!step.Open? && known && (step.Destroy? ==> mine[step.fd].index.New?)) {
        mine := TakeStep(p, mine, step);
      }
    }
    assert steps[..|steps|] == steps;
  }
}
