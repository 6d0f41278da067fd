/** The watch itself: a fixed table of what is known of each process, kept in counters,
    and the priorities it sets. */
module GuardWatch {
  import opened Optional
  import opened GuardHistory

  const MAX_PROCS := 2048
  const NOT_PROTECTED := 100
  const NICE_KEEP := 99
  const SLOW_MS := 5000

  /** A process as it is listed, and whether its priority can be set at all. */
  datatype Proc = Proc(pid: nat, ticks: nat, stuck: bool)

  datatype Slot = Slot(pid: nat, ticks: nat, secsHot: nat, secsCalm: nat, origNice: int,
                       demoted: bool, announced: bool, unboosted: bool, seen: bool)

  const EMPTY := Slot(0, 0, 0, 0, 0, false, false, false, false)

  /** What one slot stands for. */
  datatype Track = Track(ticks: nat, h: History)

  const FRESH := Track(0, [])

  /** The counters of a slot are a summary of the history. */
  predicate Sums(s: Slot, t: Track) { s.ticks == t.ticks && SumsUp(s, t.h) }

  predicate SumsUp(s: Slot, h: History) {
    && s.secsHot == HotRun(h)
    && s.demoted == Demoted(h).Some? && s.unboosted == Unboosted(h).Some? && s.announced == Announced(h)
    && (s.demoted ==> s.origNice == Demoted(h).value)
    && (s.unboosted ==> s.origNice == Unboosted(h).value)
    && s.secsCalm == if s.demoted then CalmRun(h) else 0
  }

  /** The priority a process is to have: a nice value, to be kept, or not protected. */
  type Wants = map<nat, int>

  function WantOf(wants: Wants, pid: nat): int { if pid in wants then wants[pid] else NOT_PROTECTED }
  predicate IsProtected(wants: Wants, pid: nat) { WantOf(wants, pid) != NOT_PROTECTED }

  /** The tracked process after one look at it. */
  function TrackAfter(t: Track, now: nat, elapsedMs: nat, nice: int, protected: bool, stuck: bool): Track
    requires elapsedMs > 0
  {
    Track(now, Looked(t.h, Sample(t.ticks, now, elapsedMs), nice, protected, stuck))
  }

  function NiceThen(t: Track, now: nat, elapsedMs: nat, nice: int, protected: bool, stuck: bool): int
    requires elapsedMs > 0
  {
    NiceAfter(t.h, Sample(t.ticks, now, elapsedMs), nice, protected, stuck)
  }

  type Tracks = map<nat, Track>

  /** Every tracked process has one slot, its home, and every other slot is free. */
  ghost predicate Housed(slots: seq<Slot>, home: map<nat, nat>, tracks: Tracks) {
    && home.Keys == tracks.Keys && 0 !in home
    && (forall p | p in home :: home[p] < |slots| && slots[home[p]].pid == p && Sums(slots[home[p]], tracks[p]))
    && (forall i | 0 <= i < |slots| && slots[i].pid != 0 :: slots[i].pid in home && home[slots[i].pid] == i)
  }

  ghost predicate AllFair(tracks: Tracks, wants: Wants) {
    forall p | p in tracks :: Fair(tracks[p].h, IsProtected(wants, p))
  }

  /** No process holds two slots. */
  lemma OneSlotEach(slots: seq<Slot>, home: map<nat, nat>, tracks: Tracks, i: nat, j: nat)
    requires Housed(slots, home, tracks) && i < |slots| && j < |slots| && slots[i].pid == slots[j].pid != 0
    ensures i == j
  {
    assert home[slots[i].pid] == i && home[slots[j].pid] == j;
  }

  lemma StaysHoused(slots: seq<Slot>, home: map<nat, nat>, tracks: Tracks, at: nat, s: Slot, t: Track)
    requires Housed(slots, home, tracks) && at < |slots| && slots[at].pid == s.pid != 0 && Sums(s, t)
    ensures s.pid in tracks && Housed(slots[at := s], home, tracks[s.pid := t])
  {
    hide Sums;
    assert home[s.pid] == at;
  }

  lemma MovesIn(slots: seq<Slot>, home: map<nat, nat>, tracks: Tracks, at: nat, pid: nat)
    requires Housed(slots, home, tracks) && at < |slots| && slots[at].pid == 0 != pid && pid !in home
    ensures Housed(slots[at := EMPTY.(pid := pid)], home[pid := at], tracks[pid := FRESH])
  {
  }

  lemma MovesOut(slots: seq<Slot>, home: map<nat, nat>, tracks: Tracks, at: nat)
    requires Housed(slots, home, tracks) && at < |slots| && slots[at].pid != 0
    ensures var p := slots[at].pid; Housed(slots[at := slots[at].(pid := 0)], home - {p}, tracks - {p})
  {
    hide Sums;
  }

  lemma TrackStaysFair(t: Track, now: nat, elapsedMs: nat, nice: int, protected: bool, stuck: bool)
    requires elapsedMs > 0 && Fair(t.h, protected)
    ensures Fair(TrackAfter(t, now, elapsedMs, nice, protected, stuck).h, protected)
  {
    hide Fair, Looked;
    LookIsFair(t.h, Sample(t.ticks, now, elapsedMs), nice, protected, stuck);
  }

  lemma IsHome(slots: seq<Slot>, home: map<nat, nat>, tracks: Tracks, at: nat)
    requires Housed(slots, home, tracks) && at < |slots| && slots[at].pid != 0
    ensures slots[at].pid in tracks && Sums(slots[at], tracks[slots[at].pid])
  {
  }

  lemma OthersDiffer(slots: seq<Slot>, home: map<nat, nat>, tracks: Tracks, at: nat)
    requires Housed(slots, home, tracks) && at < |slots| && slots[at].pid != 0
    ensures forall i | 0 <= i < |slots| && i != at :: slots[i].pid != slots[at].pid
  {
  }

  lemma NoHome(slots: seq<Slot>, home: map<nat, nat>, tracks: Tracks, pid: nat)
    requires Housed(slots, home, tracks) && forall i | 0 <= i < |slots| :: slots[i].pid != pid
    ensures pid !in tracks && pid !in home
  {
  }

  lemma FreshIsFair(tracks: Tracks, wants: Wants, pid: nat)
    requires AllFair(tracks, wants)
    ensures AllFair(tracks[pid := FRESH], wants)
  {
  }

  lemma FairOne(tracks: Tracks, wants: Wants, pid: nat)
    requires AllFair(tracks, wants) && pid in tracks
    ensures Fair(tracks[pid].h, IsProtected(wants, pid))
  {
  }

  lemma StaysFair(tracks: Tracks, wants: Wants, pid: nat, t: Track)
    requires AllFair(tracks, wants) && Fair(t.h, IsProtected(wants, pid))
    ensures AllFair(tracks[pid := t], wants)
  {
  }

  lemma SeenSums(s: Slot, t: Track)
    requires Sums(s, t)
    ensures Sums(s.(seen := true), t) && Sums(s.(seen := false), t)
  {
  }

  class Watch {
    const slots: array<Slot>
    const wants: Wants
    var nice: map<nat, int>

    /** The time slept since processes were last looked at. */
    var sinceCpu: nat
    ghost var tracks: map<nat, Track>
    ghost var home: map<nat, nat>

    ghost predicate Valid()
      reads this, slots
    {
      slots.Length == MAX_PROCS && Housed(slots[..], home, tracks) && AllFair(tracks, wants)
    }

    constructor (wants: Wants, nice: map<nat, int>)
      ensures Valid() && tracks == map[] && this.wants == wants && this.nice == nice && sinceCpu == 0
    {
      this.wants, this.nice, sinceCpu := wants, nice, 0;
      slots := new Slot[MAX_PROCS](_ => EMPTY);
      tracks, home := map[], map[];
    }

    /** The slot of a process, its own or a free one; none if the table is full. */
    method CpuSlot(pid: nat) returns (at: int)
      requires Valid() && pid != 0
      modifies slots, `tracks, `home
      ensures Valid() && -1 <= at < MAX_PROCS
      ensures at >= 0 ==> slots[at].pid == pid && tracks == old(tracks)[pid := Known(old(tracks), pid)]
      ensures at >= 0 ==> forall i | 0 <= i < MAX_PROCS && i != at :: slots[i] == old(slots[i]) && slots[i].pid != pid
      ensures at == -1 ==> forall i | 0 <= i < MAX_PROCS :: slots[i] == old(slots[i]) && slots[i].pid != pid
      ensures at == -1 ==> pid !in tracks && tracks == old(tracks) && forall i | 0 <= i < MAX_PROCS :: slots[i].pid != 0
    {
      hide Housed, AllFair;
      var free := -1;
      for i := 0 to MAX_PROCS
        invariant -1 <= free < i
        invariant forall j | 0 <= j < i :: slots[j].pid != pid
        invariant if free == -1 then forall j | 0 <= j < i :: slots[j].pid != 0 else slots[free].pid == 0
      {
        if slots[i].pid == pid {
          IsHome(slots[..], home, tracks, i);
          assert tracks[pid := tracks[pid]] == tracks;
          OthersDiffer(slots[..], home, tracks, i);
          return i;
        }
        if free == -1 && slots[i].pid == 0 { free := i; }
      }
      if free == -1 {
        NoHome(slots[..], home, tracks, pid);
        return -1;
      }
      NoHome(slots[..], home, tracks, pid);
      MovesIn(slots[..], home, tracks, free, pid);
      FreshIsFair(tracks, wants, pid);
      ghost var before := slots[..];
      slots[free] := EMPTY.(pid := pid);
      assert slots[..] == before[free := slots[free]];
      tracks, home := tracks[pid := FRESH], home[pid := free];
      return free;
    }

    method GetPriority(pid: nat) returns (n: int)
      requires pid in nice
      ensures n == nice[pid]
    {
      n := nice[pid];
    }

    method SetPriority(pid: nat, stuck: bool, n: int) returns (ok: bool)
      requires pid in nice
      modifies `nice
      ensures ok == !stuck && nice == if stuck then old(nice) else old(nice)[pid := n]
    {
      ok := !stuck;
      if ok { nice := nice[pid := n]; }
    }

    /** One process of a pass: what the counters lead to is what the policy asks for. */
    method LookAt(p: Proc, elapsedMs: nat)
      requires Valid() && p.pid != 0 && p.pid in nice && elapsedMs > 0
      modifies slots, `tracks, `home, `nice
      ensures Valid()
      ensures p.pid in tracks ==>
        var t, n, prot := Known(old(tracks), p.pid), old(nice)[p.pid], IsProtected(wants, p.pid);
        && tracks == old(tracks)[p.pid := TrackAfter(t, p.ticks, elapsedMs, n, prot, p.stuck)]
        && nice == old(nice)[p.pid := NiceThen(t, p.ticks, elapsedMs, n, prot, p.stuck)]
      ensures p.pid !in tracks ==>
        tracks == old(tracks) && nice == old(nice) && forall i | 0 <= i < MAX_PROCS :: slots[i].pid != 0
      ensures forall i | 0 <= i < MAX_PROCS :: slots[i] == old(slots[i]) || (slots[i].pid == p.pid && slots[i].seen)
      ensures forall i | 0 <= i < MAX_PROCS && slots[i].pid == p.pid :: slots[i].seen
    {
      hide Sums, Fair, Housed, AllFair, TrackAfter, NiceThen;
      var at := CpuSlot(p.pid);
      if at < 0 { return; }
      var st := slots[at].(seen := true);
      IsHome(slots[..], home, tracks, at);
      ghost var t, prot, n := tracks[p.pid], IsProtected(wants, p.pid), nice[p.pid];
      SeenSums(slots[at], t);
      FairOne(tracks, wants, p.pid);
      var next := Judge(st, p, elapsedMs, t);
      ghost var after := TrackAfter(t, p.ticks, elapsedMs, n, prot, p.stuck);
      TrackStaysFair(t, p.ticks, elapsedMs, n, prot, p.stuck);
      StaysFair(tracks, wants, p.pid, after);
      StaysHoused(slots[..], home, tracks, at, next, after);
      ghost var before := slots[..];
      slots[at] := next;
      assert slots[..] == before[at := next];
      tracks := tracks[p.pid := after];
    }

    /** The counters after a look, and the priority set on the way. */
    method Judge(slot: Slot, p: Proc, elapsedMs: nat, ghost t: Track) returns (st: Slot)
      requires p.pid in nice && elapsedMs > 0 && slot.pid == p.pid && slot.seen && Sums(slot, t)
      requires Fair(t.h, IsProtected(wants, p.pid))
      modifies `nice
      ensures st.pid == p.pid && st.seen
      ensures Sums(st, TrackAfter(t, p.ticks, elapsedMs, old(nice)[p.pid], IsProtected(wants, p.pid), p.stuck))
      ensures nice == old(nice)[p.pid :=
        NiceThen(t, p.ticks, elapsedMs, old(nice)[p.pid], IsProtected(wants, p.pid), p.stuck)]
    {
      hide Looked, NiceAfter, Fair, HotRun, CalmRun, Announced, Demoted, Unboosted;
      st := slot;
      var prev, now := st.ticks, p.ticks;
      st := st.(ticks := now);
      if prev == 0 || now < prev {
        BlindLook(t.h, nice[p.pid], IsProtected(wants, p.pid), p.stuck);
        assert nice[p.pid := nice[p.pid]] == nice;
        st := st.(secsHot := 0);
        return;
      }
      var used := now - prev;
      var have := elapsedMs * TICKS_PER_SEC / 1000;
      var percent := if have > 0 then used * 100 / have else 0;
      if percent < HOG_PERCENT {
        st := JudgeCalm(st, p.pid, p.stuck, elapsedMs / 1000, t.h);
      } else {
        st := JudgeHot(st, p.pid, p.stuck, elapsedMs / 1000, t.h);
      }
    }

    method JudgeCalm(slot: Slot, pid: nat, stuck: bool, secs: nat, ghost h: History) returns (st: Slot)
      requires pid in nice && SumsUp(slot, h) && Fair(h, IsProtected(wants, pid))
      modifies `nice
      ensures (st.pid, st.ticks, st.seen) == (slot.pid, slot.ticks, slot.seen)
      ensures SumsUp(st, Looked(h, Calm(secs), old(nice)[pid], IsProtected(wants, pid), stuck))
      ensures nice == old(nice)[pid := NiceAfter(h, Calm(secs), old(nice)[pid], IsProtected(wants, pid), stuck)]
    {
      ghost var prot, was := IsProtected(wants, pid), nice[pid];
      CalmLook(h, secs, was, prot, stuck);
      StandingIsRight(h, prot);
      assert nice[pid := was] == nice;
      st := slot.(secsHot := 0, announced := false);
      if st.unboosted {
        var _ := SetPriority(pid, stuck, st.origNice);
        st := st.(unboosted := false);
      }
      if st.demoted {
        st := st.(secsCalm := st.secsCalm + secs);
        if st.secsCalm >= HOG_SECONDS {
          var _ := SetPriority(pid, stuck, st.origNice);
          st := st.(demoted := false, secsCalm := 0);
        }
      }
    }

    method JudgeHot(slot: Slot, pid: nat, stuck: bool, secs: nat, ghost h: History) returns (st: Slot)
      requires pid in nice && SumsUp(slot, h) && Fair(h, IsProtected(wants, pid))
      modifies `nice
      ensures (st.pid, st.ticks, st.seen) == (slot.pid, slot.ticks, slot.seen)
      ensures SumsUp(st, Looked(h, Hot(secs), old(nice)[pid], IsProtected(wants, pid), stuck))
      ensures nice == old(nice)[pid := NiceAfter(h, Hot(secs), old(nice)[pid], IsProtected(wants, pid), stuck)]
    {
      ghost var prot, n := IsProtected(wants, pid), nice[pid];
      HotLook(h, secs, n, prot, stuck);
      StandingIsRight(h, prot);
      assert nice[pid := n] == nice;
      st := slot.(secsCalm := 0);
      st := st.(secsHot := st.secsHot + secs);
      if !st.announced && st.secsHot >= HOG_NOTICE_SECONDS { st := st.(announced := true); }
      if IsProtected(wants, pid) {
        if st.secsHot >= HOG_SECONDS && !st.unboosted {
          var cur := GetPriority(pid);
          if cur < 0 {
            var ok := SetPriority(pid, stuck, 0);
            if ok { st := st.(unboosted := true, origNice := cur); }
          }
        }
        return;
      }
      if st.secsHot < HOG_SECONDS || st.demoted { return; }
      var was := GetPriority(pid);
      if was >= NICE_HOG { return; }
      var ok := SetPriority(pid, stuck, NICE_HOG);
      if ok { st := st.(origNice := was, demoted := true); }
    }

    /** A pass over all processes: each one tracked is dealt with as the policy asks, and
        those that are gone are forgotten. */
    method CheckCpuHogs(list: seq<Proc>, elapsedMs: int)
      requires Valid() && Distinct(list) && forall p | p in list :: p.pid in nice
      modifies slots, `tracks, `home, `nice
      ensures Valid()
      ensures elapsedMs <= 0 ==> tracks == old(tracks) && nice == old(nice)
      ensures elapsedMs > 0 ==>
        && Passed(list, |list|, old(tracks), old(nice), tracks, nice, elapsedMs, wants)
        && tracks.Keys <= Pids(list)
    {
      hide Housed, AllFair, Passed;
      if elapsedMs <= 0 { return; }
      ForgetSeen();
      LookAtAll(list, elapsedMs);
      ghost var beyond := tracks;
      DropUnseen(Pids(list));
      ListedStay(list, old(tracks), old(nice), beyond, tracks, nice, elapsedMs, wants);
    }

    method ForgetSeen()
      requires Valid()
      modifies slots
      ensures Valid() && SeenAre(slots[..], {})
    {
      hide Housed, AllFair, Sums;
      for i := 0 to MAX_PROCS
        invariant Valid()
        invariant forall j | 0 <= j < i :: !slots[j].seen
      {
        ghost var before := slots[..];
        SeenStays(before, home, tracks, i);
        slots[i] := slots[i].(seen := false);
        assert slots[..] == before[i := slots[i]];
      }
    }

    method LookAtAll(list: seq<Proc>, elapsedMs: nat)
      requires Valid() && Distinct(list) && (forall p | p in list :: p.pid in nice) && elapsedMs > 0
      requires SeenAre(slots[..], {})
      modifies slots, `tracks, `home, `nice
      ensures Valid() && SeenAre(slots[..], Pids(list))
      ensures Looks(list, |list|, old(tracks), old(nice), tracks, nice, elapsedMs, wants)
    {
      hide Housed, AllFair, TrackAfter, NiceThen, Looks, Distinct;
      ghost var t0, n0 := tracks, nice;
      LooksStart(list, t0, n0, elapsedMs, wants);
      for k := 0 to |list|
        invariant Valid() && nice.Keys == n0.Keys && SeenAre(slots[..], Pids(list[..k]))
        invariant Looks(list, k, t0, n0, tracks, nice, elapsedMs, wants)
      {
        hide Housed, AllFair, TrackAfter, NiceThen, Looks, Distinct;
        ghost var t1, n1 := tracks, nice;
        PidOk(list, k);
        LookAt(list[k], elapsedMs);
        if list[k].pid !in tracks { AllTaken(slots[..], home, tracks); }
        ghost var p := list[k];
        LooksBefore(list, k, t0, n0, t1, n1, elapsedMs, wants);
        NewlyDealt(p, t0, n0, t1, n1, tracks, nice, elapsedMs, wants);
        ChangedOne(p.pid, t1, n1, tracks, nice, if p.pid in tracks then tracks[p.pid] else FRESH, nice[p.pid]);
        LooksOn(list, k, t0, n0, t1, n1, tracks, nice, elapsedMs, wants);
        assert list[..k + 1] == list[..k] + [list[k]];
      }
      assert list[..|list|] == list;
    }

    method DropUnseen(ghost listed: set<nat>)
      requires Valid() && SeenAre(slots[..], listed)
      modifies slots, `tracks, `home
      ensures Valid() && tracks == Only(old(tracks), listed)
    {
      hide Housed, AllFair, Sums;
      ghost var t0 := tracks;
      for i := 0 to MAX_PROCS
        invariant Valid() && SeenAre(slots[..], listed)
        invariant forall j | 0 <= j < i && slots[j].pid != 0 :: slots[j].seen
        invariant tracks.Keys <= t0.Keys && forall p | p in t0 && p in listed :: p in tracks
        invariant forall p | p in tracks :: tracks[p] == t0[p]
      {
        hide Housed, AllFair, Sums;
        if slots[i].pid != 0 && !slots[i].seen {
          ghost var before := slots[..];
          MovesOut(before, home, tracks, i);
          FairWithout(tracks, wants, slots[i].pid);
          tracks, home := tracks - {slots[i].pid}, home - {slots[i].pid};
          slots[i] := slots[i].(pid := 0);
          assert slots[..] == before[i := slots[i]];
        }
      }
      AllAtHome(slots[..], home, tracks, listed);
      assert tracks == Only(t0, listed);
    }

    /** Whether the boost of this process was taken away. */
    method CpuIsUnboosted(pid: nat) returns (yes: bool)
      requires Valid() && pid != 0
      ensures yes == (pid in tracks && Unboosted(tracks[pid].h).Some?)
    {
      hide Housed, AllFair;
      for i := 0 to MAX_PROCS
        invariant forall j | 0 <= j < i :: slots[j].pid != pid
      {
        if slots[i].pid == pid {
          IsHome(slots[..], home, tracks, i);
          return slots[i].unboosted;
        }
      }
      NoHome(slots[..], home, tracks, pid);
      return false;
    }

    /** Protected processes get the priority they are to have, but none that has lost its
        boost for spinning. */
    method ApplyPriorities(list: seq<Proc>)
      requires Valid() && forall p | p in list :: p.pid != 0 && p.pid in nice
      modifies `nice
      ensures Valid() && nice == Applied(list, tracks, wants, old(nice))
    {
      hide Housed, AllFair, Applied;
      AppliedNone(tracks, wants, nice);
      for k := 0 to |list|
        invariant Valid() && nice == Applied(list[..k], tracks, wants, old(nice))
      {
        hide Housed, AllFair, Applied;
        var pid := list[k].pid;
        assert list[k] in list;
        AppliedOn(list, k, tracks, wants, old(nice));
        AppliedKeys(list[..k], tracks, wants, old(nice));
        var want := WantOf(wants, pid);
        if want != NOT_PROTECTED && want != NICE_KEEP {
          var unboosted := CpuIsUnboosted(pid);
          if !unboosted {
            var cur := GetPriority(pid);
            if cur != want { var _ := SetPriority(pid, list[k].stuck, want); }
          }
        }
      }
      assert list[..|list|] == list;
    }

    /** One slow pass: the priorities are applied, then the hogs are dealt with if enough time
        has passed. A protected process that has lost its boost stays where it is while it spins,
        and gets back exactly what it had at the first calm look. */
    method SlowPass(list: seq<Proc>)
      requires Valid() && Distinct(list) && forall p | p in list :: p.pid in nice
      modifies this, slots
      ensures Valid() && sinceCpu == if old(sinceCpu) >= SLOW_MS then 0 else old(sinceCpu)
      ensures Swept(list, old(sinceCpu), old(tracks), old(nice), tracks, nice, wants)
      ensures old(sinceCpu) >= SLOW_MS ==>
        && (forall p | p in list && Spins(p, old(tracks), old(sinceCpu)) ::
              IsHeld(p.pid, old(tracks), old(nice), tracks, nice))
        && (forall p | p in list && Rests(p, old(tracks), old(sinceCpu)) ::
              IsGivenBack(p.pid, old(tracks), tracks, nice))
    {
      hide Housed, Passed, Applied, Spins, Rests, IsHeld, IsGivenBack, AllFair;
      forall k | 0 <= k < |list|
        ensures list[k].pid != 0
      {
        PidOk(list, k);
      }
      AppliedKeys(list, tracks, wants, nice);
      ApplyPriorities(list);
      if sinceCpu >= SLOW_MS {
        CheckCpuHogs(list, sinceCpu);
        BoostsMove(list, sinceCpu, old(tracks), old(nice), tracks, nice, wants);
        sinceCpu := 0;
      }
    }

    /** The guard's loop, over what it meets in each round: whether a slow pass is due, the
        processes and their priorities, whatever has happened to them in between, and how long
        it sleeps. Every round does what the policy asks for and no more. */
    method Run(rounds: seq<Round>) returns (ghost run: seq<State>)
      requires Valid() && forall r | r in rounds :: r.Sound()
      modifies this, slots
      ensures Valid() && IsRun(run, rounds, wants)
      ensures run[0] == State(old(tracks), old(nice), old(sinceCpu)) && run[|rounds|] == State(tracks, nice, sinceCpu)
    {
      hide Housed, AllFair, Follows, Swept, Round.Sound;
      run := [State(tracks, nice, sinceCpu)];
      for i := 0 to |rounds|
        invariant Valid() && |run| == i + 1
        invariant run[0] == State(old(tracks), old(nice), old(sinceCpu)) && run[i] == State(tracks, nice, sinceCpu)
        invariant forall j | 0 <= j <= i :: AllFair(run[j].tracks, wants)
        invariant forall j | 0 <= j < i :: Follows(run[j], rounds[j], run[j + 1], wants)
      {
        hide Housed, AllFair, Follows, Swept, Round.Sound;
        Turn(rounds[i]);
        run := run + [State(tracks, nice, sinceCpu)];
      }
    }

    /** One round of the loop. */
    method Turn(r: Round)
      requires Valid() && r.Sound()
      modifies this, slots
      ensures Valid() && Follows(State(old(tracks), old(nice), old(sinceCpu)), r, State(tracks, nice, sinceCpu), wants)
    {
      hide Housed, AllFair, Swept;
      nice := r.nice;
      if r.slow { SlowPass(r.list); }
      sinceCpu := sinceCpu + r.sleepMs;
    }
  }

  ghost predicate Favoured(pid: nat, tracks: Tracks, wants: Wants) {
    && IsProtected(wants, pid) && WantOf(wants, pid) != NICE_KEEP
    && !(pid in tracks && Unboosted(tracks[pid].h).Some?)
  }

  /** Those whose priority can be set. */
  function Movable(list: seq<Proc>): (r: seq<Proc>)
    ensures forall p :: p in r <==> p in list && !p.stuck
  {
    if list == [] then []
    else Movable(list[..|list| - 1]) + if list[|list| - 1].stuck then [] else [list[|list| - 1]]
  }

  /** The priorities once the protected processes of a list have got theirs. */
  ghost function Applied(list: seq<Proc>, tracks: Tracks, wants: Wants, nice: map<nat, int>): map<nat, int> {
    map q | q in nice :: if q in Pids(Movable(list)) && Favoured(q, tracks, wants) then wants[q] else nice[q]
  }

  lemma AppliedNone(tracks: Tracks, wants: Wants, nice: map<nat, int>)
    ensures Applied([], tracks, wants, nice) == nice
  {
  }

  lemma AppliedOn(list: seq<Proc>, k: nat, tracks: Tracks, wants: Wants, nice: map<nat, int>)
    requires k < |list| && list[k].pid in nice
    ensures var pid, sofar := list[k].pid, Applied(list[..k], tracks, wants, nice);
      && Applied(list[..k + 1], tracks, wants, nice) ==
           (if Favoured(pid, tracks, wants) && !list[k].stuck then sofar[pid := wants[pid]] else sofar)
      && (Favoured(pid, tracks, wants) && pid in sofar && sofar[pid] == wants[pid] ==>
        sofar[pid := wants[pid]] == sofar)
  {
    hide Favoured, Pids, Movable;
    MovableOn(list, k);
    var pid := list[k].pid;
    if Favoured(pid, tracks, wants) { assert pid in wants by { FavouredWanted(pid, tracks, wants); } }
  }

  lemma MovableOn(list: seq<Proc>, k: nat)
    requires k < |list|
    ensures Pids(Movable(list[..k + 1])) == Pids(Movable(list[..k])) + if list[k].stuck then {} else {list[k].pid}
  {
    hide Movable;
    assert list[..k + 1] == list[..k] + [list[k]];
    var all, some := Movable(list[..k + 1]), Movable(list[..k]);
    assert forall p | p in all :: p in some || (p == list[k] && !p.stuck);
    assert forall p | p in some :: p in all;
    assert !list[k].stuck ==> list[k] in all;
  }

  lemma FavouredWanted(pid: nat, tracks: Tracks, wants: Wants)
    requires Favoured(pid, tracks, wants)
    ensures pid in wants
  {
  }

  lemma AppliedKeys(list: seq<Proc>, tracks: Tracks, wants: Wants, nice: map<nat, int>)
    ensures Applied(list, tracks, wants, nice).Keys == nice.Keys
  {
  }

  // ── Runs of the loop ───────────────────────────────────────────────

  datatype Round = Round(slow: bool, list: seq<Proc>, nice: map<nat, int>, sleepMs: nat) {
    predicate Sound() { Distinct(list) && forall p | p in list :: p.pid in nice }
  }

  datatype State = State(tracks: Tracks, nice: map<nat, int>, sinceCpu: nat)

  /** What a slow pass does: every priority and every history behind it is what the policy asks
      for, starting from the priorities that are applied first. */
  ghost predicate Swept(list: seq<Proc>, sinceCpu: nat, t0: Tracks, n0: map<nat, int>, t: Tracks, n: map<nat, int>,
                        wants: Wants)
  {
    var n1 := Applied(list, t0, wants, n0);
    if sinceCpu < SLOW_MS then t == t0 && n == n1
    else t.Keys <= Pids(list) && Passed(list, |list|, t0, n1, t, n, sinceCpu, wants)
  }

  ghost predicate Follows(s: State, r: Round, next: State, wants: Wants) {
    if !r.slow then next == State(s.tracks, r.nice, s.sinceCpu + r.sleepMs)
    else
      && Swept(r.list, s.sinceCpu, s.tracks, r.nice, next.tracks, next.nice, wants)
      && next.sinceCpu == (if s.sinceCpu >= SLOW_MS then 0 else s.sinceCpu) + r.sleepMs
  }

  /** The states of the loop, one before each round and one behind the last. */
  ghost predicate IsRun(run: seq<State>, rounds: seq<Round>, wants: Wants) {
    && |run| == |rounds| + 1
    && (forall j | 0 <= j <= |rounds| :: AllFair(run[j].tracks, wants))
    && (forall j | 0 <= j < |rounds| :: Follows(run[j], rounds[j], run[j + 1], wants))
  }

  function Slept(rounds: seq<Round>): nat {
    if rounds == [] then 0 else Slept(rounds[..|rounds| - 1]) + rounds[|rounds| - 1].sleepMs
  }

  /** Whoever is tracked behind a sweep was listed, and dealt with. */
  lemma WasListed(list: seq<Proc>, q: nat, t0: Tracks, n1: map<nat, int>, t: Tracks, n: map<nat, int>, elapsedMs: nat,
                  wants: Wants) returns (p: Proc)
    requires elapsedMs > 0 && Passed(list, |list|, t0, n1, t, n, elapsedMs, wants) && t.Keys <= Pids(list) && q in t
    ensures p in list && p.pid == q && Dealt(p, t0, n1, t, n, elapsedMs, wants)
  {
    hide Dealt;
    p :| p in list && p.pid == q;
    var k :| 0 <= k < |list| && list[k] == p;
  }

  lemma SampleIs(prev: nat, now: nat, elapsedMs: nat)
    requires elapsedMs > 0
    ensures Sample(prev, now, elapsedMs) in [Blind, Hot(elapsedMs / 1000), Calm(elapsedMs / 1000)]
  {
  }

  /** What one round adds to the history of a process: nothing, or what a look at it calls for. */
  lemma OneRound(s: State, r: Round, next: State, wants: Wants, q: nat) returns (sample: Event, nice: int, stuck: bool)
    requires Follows(s, r, next, wants) && q in next.tracks
    ensures var h, g := Known(s.tracks, q).h, next.tracks[q].h;
      || (g == h && q in s.tracks && next.sinceCpu == s.sinceCpu + r.sleepMs)
      || (g == Looked(h, sample, nice, IsProtected(wants, q), stuck) && next.sinceCpu == r.sleepMs)
    ensures sample in [Blind, Hot(s.sinceCpu / 1000), Calm(s.sinceCpu / 1000)]
  {
    hide Looked, Applied, NiceThen, Sample, Pids, Passed;
    if r.slow && s.sinceCpu >= SLOW_MS {
      var n1 := Applied(r.list, s.tracks, wants, r.nice);
      var p := WasListed(r.list, q, s.tracks, n1, next.tracks, next.nice, s.sinceCpu, wants);
      sample, nice, stuck := Sample(Known(s.tracks, q).ticks, p.ticks, s.sinceCpu), n1[q], p.stuck;
      SampleIs(Known(s.tracks, q).ticks, p.ticks, s.sinceCpu);
    } else {
      sample, nice, stuck := Blind, 0, false;
    }
  }

  /** What a look makes of the two counts and of what stands. */
  lemma LookCounts(h: History, sample: Event, secs: nat, nice: int, protected: bool, stuck: bool)
    requires Fair(h, protected) && sample in [Blind, Hot(secs), Calm(secs)]
    ensures var g := Looked(h, sample, nice, protected, stuck);
      && (HotRun(g) == 0 || HotRun(g) == HotRun(h) + secs)
      && (CalmRun(g) == 0 || CalmRun(g) == CalmRun(h) || CalmRun(g) == CalmRun(h) + secs)
      && (HotRun(h) + secs < HOG_SECONDS ==>
            && (Demoted(g).Some? ==> Demoted(g) == Demoted(h))
            && (Unboosted(g).Some? ==> Unboosted(g) == Unboosted(h)))
      && (CalmRun(h) + secs < HOG_SECONDS && Demoted(h).Some? ==> Demoted(g) == Demoted(h))
  {
    hide Looked, NiceAfter, HotRun, CalmRun, Demoted, Unboosted, Announced, Fair;
    match sample {
      case Hot(_) => HotLook(h, secs, nice, protected, stuck);
      case Calm(_) => CalmLook(h, secs, nice, protected, stuck);
      case _ => BlindLook(h, nice, protected, stuck);
    }
  }

  /** Over every run: a process that has no hot seconds yet and stands undisturbed is not
      demoted and keeps its boost until the loop has slept for 30 s, whatever it was seen to do. */
  lemma {:induction false} RunIsPatient(run: seq<State>, rounds: seq<Round>, wants: Wants, q: nat, i: nat)
    requires IsRun(run, rounds, wants) && i <= |rounds|
    requires Undisturbed(Known(run[0].tracks, q).h)
    ensures var slept := Slept(rounds[..i]) + run[0].sinceCpu;
      && run[i].sinceCpu <= slept
      && (var h := Known(run[i].tracks, q).h;
          && HotRun(h) * 1000 + run[i].sinceCpu <= slept
          && (Demoted(h).Some? || Unboosted(h).Some? ==> HOG_SECONDS * 1000 <= slept))
  {
    hide HotRun, Demoted, Unboosted, Fair, Looked, Follows;
    if i == 0 {
      assert rounds[..0] == [];
    } else {
      RunIsPatient(run, rounds, wants, q, i - 1);
      assert rounds[..i][..i - 1] == rounds[..i - 1];
      var (s, r, next) := (run[i - 1], rounds[i - 1], run[i]);
      var h := Known(s.tracks, q).h;
      TimePasses(s, r, next, wants);
      if q in next.tracks {
        var sample, nice, stuck := OneRound(s, r, next, wants, q);
        KnownFair(s.tracks, wants, q);
        LookCounts(h, sample, s.sinceCpu / 1000, nice, IsProtected(wants, q), stuck);
        assert s.sinceCpu / 1000 * 1000 <= s.sinceCpu;
      } else {
        NothingStands();
      }
    }
  }

  predicate Undisturbed(h: History) { HotRun(h) == 0 && Demoted(h).None? && Unboosted(h).None? }

  lemma NothingStands()
    ensures Undisturbed([]) && CalmRun([]) == 0
  {
  }

  lemma TimePasses(s: State, r: Round, next: State, wants: Wants)
    requires Follows(s, r, next, wants)
    ensures next.sinceCpu <= s.sinceCpu + r.sleepMs
  {
  }

  lemma KnownFair(tracks: Tracks, wants: Wants, q: nat)
    requires AllFair(tracks, wants)
    ensures Fair(Known(tracks, q).h, IsProtected(wants, q))
  {
  }

  /** Over every run: a demoted process whose last hot sample is the last thing seen of it does not
      get its priority back until the loop has slept for 30 s more, as long as it stays tracked. */
  lemma {:induction false} RunGivesBackLate(run: seq<State>, rounds: seq<Round>, wants: Wants, q: nat, i: nat)
    requires IsRun(run, rounds, wants) && i <= |rounds| && forall j | 0 <= j <= i :: q in run[j].tracks
    requires var h := run[0].tracks[q].h; CalmRun(h) == 0 && Demoted(h).Some?
    ensures var slept := Slept(rounds[..i]) + run[0].sinceCpu;
      var h := run[i].tracks[q].h;
      HOG_SECONDS * 1000 <= slept
      || (CalmRun(h) * 1000 + run[i].sinceCpu <= slept && Demoted(h) == Demoted(run[0].tracks[q].h))
  {
    hide HotRun, CalmRun, Demoted, Unboosted, Fair, Looked, Follows;
    if i == 0 {
      assert rounds[..0] == [];
    } else {
      RunGivesBackLate(run, rounds, wants, q, i - 1);
      assert rounds[..i][..i - 1] == rounds[..i - 1];
      var (s, r, next) := (run[i - 1], rounds[i - 1], run[i]);
      TimePasses(s, r, next, wants);
      var sample, nice, stuck := OneRound(s, r, next, wants, q);
      KnownFair(s.tracks, wants, q);
      LookCounts(Known(s.tracks, q).h, sample, s.sinceCpu / 1000, nice, IsProtected(wants, q), stuck);
      assert s.sinceCpu / 1000 * 1000 <= s.sinceCpu;
    }
  }

  /** A boost that was taken stays off while its process spins, and comes back at rest. */
  lemma BoostsMove(list: seq<Proc>, elapsedMs: nat, t0: Tracks, n0: map<nat, int>, t: Tracks, n: map<nat, int>,
                   wants: Wants)
    requires AllFair(t0, wants) && elapsedMs >= SLOW_MS && (forall p | p in list :: p.pid in n0)
    requires t.Keys <= Pids(list) && Passed(list, |list|, t0, Applied(list, t0, wants, n0), t, n, elapsedMs, wants)
    ensures forall p | p in list && Spins(p, t0, elapsedMs) :: IsHeld(p.pid, t0, n0, t, n)
    ensures forall p | p in list && Rests(p, t0, elapsedMs) :: IsGivenBack(p.pid, t0, t, n)
  {
    hide Fair, Looked, NiceAfter, Unboosted, Sample, Pids;
    var n1 := Applied(list, t0, wants, n0);
    forall p | p in list && (Spins(p, t0, elapsedMs) || Rests(p, t0, elapsedMs))
      ensures Dealt(p, t0, n1, t, n, elapsedMs, wants) && p.pid in t
    {
      var k :| 0 <= k < |list| && list[k] == p;
    }
    forall p | p in list && Spins(p, t0, elapsedMs)
      ensures IsHeld(p.pid, t0, n0, t, n)
    {
      SpinStays(t0[p.pid], p.ticks, elapsedMs, n1[p.pid], IsProtected(wants, p.pid), p.stuck);
    }
    forall p | p in list && Rests(p, t0, elapsedMs)
      ensures IsGivenBack(p.pid, t0, t, n)
    {
      RestReturns(t0[p.pid], p.ticks, elapsedMs, n1[p.pid], IsProtected(wants, p.pid));
    }
  }

  function Known(tracks: map<nat, Track>, pid: nat): Track { if pid in tracks then tracks[pid] else FRESH }

  // ── What a pass does to all of them ────────────────────────────────

  function Pids(list: seq<Proc>): set<nat> { set p | p in list :: p.pid }

  predicate Distinct(list: seq<Proc>) {
    (forall i | 0 <= i < |list| :: list[i].pid != 0) && forall i, j | 0 <= i < j < |list| :: list[i].pid != list[j].pid
  }

  function Only(tracks: Tracks, listed: set<nat>): Tracks { map p | p in tracks && p in listed :: tracks[p] }

  predicate SeenAre(slots: seq<Slot>, listed: set<nat>) {
    forall i | 0 <= i < |slots| && slots[i].pid != 0 :: slots[i].seen <==> slots[i].pid in listed
  }

  /** The first `k` processes have been dealt with, each one with a slot as the policy asks;
      one is passed over only if it is new and the table cannot hold them all. */
  ghost predicate Passed(list: seq<Proc>, k: nat, t0: Tracks, n0: map<nat, int>, t: Tracks, n: map<nat, int>,
                         elapsedMs: nat, wants: Wants)
    requires k <= |list| && elapsedMs > 0
  {
    && n.Keys == n0.Keys
    && (forall i | 0 <= i < k :: Dealt(list[i], t0, n0, t, n, elapsedMs, wants))
    && (forall q | q in n && q !in Pids(list[..k]) :: n[q] == n0[q])
    && (|t0.Keys + Pids(list)| <= MAX_PROCS ==> forall i | 0 <= i < k :: list[i].pid in t)
  }

  ghost predicate Dealt(p: Proc, t0: Tracks, n0: map<nat, int>, t: Tracks, n: map<nat, int>, elapsedMs: nat,
                        wants: Wants)
    requires elapsedMs > 0
  {
    && p.pid in n0 && p.pid in n
    && (p.pid in t ==>
          && t[p.pid] == TrackAfter(Known(t0, p.pid), p.ticks, elapsedMs, n0[p.pid], IsProtected(wants, p.pid), p.stuck)
          && n[p.pid] == NiceThen(Known(t0, p.pid), p.ticks, elapsedMs, n0[p.pid], IsProtected(wants, p.pid), p.stuck))
    && (p.pid !in t ==> p.pid !in t0 && n[p.pid] == n0[p.pid])
  }

  /** The same before the processes that are gone have been forgotten. */
  ghost predicate Looks(list: seq<Proc>, k: nat, t0: Tracks, n0: map<nat, int>, t: Tracks, n: map<nat, int>,
                        elapsedMs: nat, wants: Wants)
    requires k <= |list| && elapsedMs > 0
  {
    && Passed(list, k, t0, n0, t, n, elapsedMs, wants)
    && t.Keys <= t0.Keys + Pids(list)
    && (forall q | q !in Pids(list[..k]) :: (q in t <==> q in t0) && (q in t ==> t[q] == t0[q]))
  }

  lemma LooksStart(list: seq<Proc>, t: Tracks, n: map<nat, int>, elapsedMs: nat, wants: Wants)
    requires elapsedMs > 0
    ensures Looks(list, 0, t, n, t, n, elapsedMs, wants)
  {
  }

  lemma PidOk(list: seq<Proc>, k: nat)
    requires Distinct(list) && k < |list|
    ensures list[k] in list && list[k].pid != 0 && list[k].pid !in Pids(list[..k])
  {
  }

  lemma SeenStays(slots: seq<Slot>, home: map<nat, nat>, tracks: Tracks, at: nat)
    requires Housed(slots, home, tracks) && at < |slots|
    ensures Housed(slots[at := slots[at].(seen := false)], home, tracks)
  {
  }

  lemma FairWithout(tracks: Tracks, wants: Wants, pid: nat)
    requires AllFair(tracks, wants)
    ensures AllFair(tracks - {pid}, wants)
  {
  }

  /** When only the listed are at home, they are what is left. */
  lemma AllAtHome(slots: seq<Slot>, home: map<nat, nat>, tracks: Tracks, listed: set<nat>)
    requires Housed(slots, home, tracks) && SeenAre(slots, listed)
    requires forall i | 0 <= i < |slots| && slots[i].pid != 0 :: slots[i].seen
    ensures tracks.Keys <= listed
  {
    forall p | p in tracks
      ensures p in listed
    {
      assert slots[home[p]].pid == p;
    }
  }

  /** A full table tracks as many processes as it has slots. */
  lemma AllTaken(slots: seq<Slot>, home: map<nat, nat>, tracks: Tracks)
    requires Housed(slots, home, tracks) && forall i | 0 <= i < |slots| :: slots[i].pid != 0
    ensures |tracks.Keys| >= |slots|
  {
    TakenBelow(slots, home, tracks, |slots|);
    Larger(PidsBelow(slots, |slots|), tracks.Keys);
  }

  function PidsBelow(slots: seq<Slot>, n: nat): (s: set<nat>)
    requires n <= |slots|
    ensures forall p | p in s :: exists i | 0 <= i < n :: slots[i].pid == p
  {
    if n == 0 then {} else PidsBelow(slots, n - 1) + {slots[n - 1].pid}
  }

  lemma {:induction false} TakenBelow(slots: seq<Slot>, home: map<nat, nat>, tracks: Tracks, n: nat)
    requires Housed(slots, home, tracks) && n <= |slots| && forall i | 0 <= i < |slots| :: slots[i].pid != 0
    ensures |PidsBelow(slots, n)| == n && PidsBelow(slots, n) <= tracks.Keys
  {
    hide Housed, PidsBelow;
    if n == 0 {
      NonePid(slots);
    } else {
      TakenBelow(slots, home, tracks, n - 1);
      IsHome(slots, home, tracks, n - 1);
      OthersDiffer(slots, home, tracks, n - 1);
      OnePid(slots, n);
    }
  }

  lemma NonePid(slots: seq<Slot>)
    ensures PidsBelow(slots, 0) == {}
  {
  }

  lemma OnePid(slots: seq<Slot>, n: nat)
    requires 0 < n <= |slots| && forall i | 0 <= i < n - 1 :: slots[i].pid != slots[n - 1].pid
    ensures PidsBelow(slots, n) == PidsBelow(slots, n - 1) + {slots[n - 1].pid}
    ensures |PidsBelow(slots, n)| == |PidsBelow(slots, n - 1)| + 1
  {
    assert slots[n - 1].pid !in PidsBelow(slots, n - 1);
  }

  lemma {:induction false} Larger(a: set<nat>, b: set<nat>)
    requires a <= b
    ensures |a| <= |b|
    decreases |a|
  {
    if a != {} {
      var x :| x in a;
      Larger(a - {x}, b - {x});
    }
  }

  lemma LooksOn(list: seq<Proc>, k: nat, t0: Tracks, n0: map<nat, int>, t1: Tracks, n1: map<nat, int>,
                t: Tracks, n: map<nat, int>, elapsedMs: nat, wants: Wants)
    requires k < |list| && elapsedMs > 0 && Looks(list, k, t0, n0, t1, n1, elapsedMs, wants)
    requires list[k].pid !in Pids(list[..k])
    requires AgreeOff(list[k].pid, t1, n1, t, n) && Dealt(list[k], t0, n0, t, n, elapsedMs, wants)
    requires list[k].pid !in t ==> t == t1 && |t.Keys| >= MAX_PROCS
    ensures Looks(list, k + 1, t0, n0, t, n, elapsedMs, wants)
  {
    hide Pids, Dealt;
    var p := list[k];
    PidsOn(list, k);
    forall i | 0 <= i < k
      ensures Dealt(list[i], t0, n0, t, n, elapsedMs, wants) && (list[i].pid in t1 <==> list[i].pid in t)
    {
      PidOfEarlier(list, k, i);
      DealtStays(list[i], p.pid, t0, n0, t1, n1, t, n, elapsedMs, wants);
    }
    assert t.Keys <= t0.Keys + Pids(list);
    if p.pid !in t { NoRoom(t.Keys, p.pid, t0.Keys + Pids(list)); }
  }

  lemma NoRoom(a: set<nat>, x: nat, b: set<nat>)
    requires x !in a && a <= b && x in b && |a| >= MAX_PROCS
    ensures |b| > MAX_PROCS
  {
    Larger(a + {x}, b);
  }

  lemma LooksBefore(list: seq<Proc>, k: nat, t0: Tracks, n0: map<nat, int>, t: Tracks, n: map<nat, int>,
                    elapsedMs: nat, wants: Wants)
    requires k < |list| && elapsedMs > 0 && Looks(list, k, t0, n0, t, n, elapsedMs, wants)
    requires list[k].pid !in Pids(list[..k]) && list[k].pid in n
    ensures var q := list[k].pid;
      n0.Keys == n.Keys && n[q] == n0[q] && (q in t <==> q in t0) && (q in t ==> t[q] == t0[q])
  {
    hide Dealt, Pids;
  }

  lemma ChangedOne(pid: nat, t1: Tracks, n1: map<nat, int>, t: Tracks, n: map<nat, int>, x: Track, y: int)
    requires pid in n1 && ((t == t1[pid := x] && n == n1[pid := y]) || (t == t1 && n == n1))
    ensures AgreeOff(pid, t1, n1, t, n)
  {
  }

  /** Forgetting those that are gone leaves the listed ones as they are. */
  lemma ListedStay(list: seq<Proc>, t0: Tracks, n0: map<nat, int>, t1: Tracks, t: Tracks, n: map<nat, int>,
                   elapsedMs: nat, wants: Wants)
    requires elapsedMs > 0 && Passed(list, |list|, t0, n0, t1, n, elapsedMs, wants) && t == Only(t1, Pids(list))
    ensures Passed(list, |list|, t0, n0, t, n, elapsedMs, wants) && t.Keys <= Pids(list)
  {
    hide TrackAfter, NiceThen, Pids;
    forall i | 0 <= i < |list|
      ensures list[i].pid in Pids(list)
    {
      PidOfEarlier(list, |list|, i);
      assert list[..|list|] == list;
    }
    forall i | 0 <= i < |list|
      ensures Dealt(list[i], t0, n0, t, n, elapsedMs, wants)
    {
      assert Dealt(list[i], t0, n0, t1, n, elapsedMs, wants);
    }
  }

  lemma PidsOn(list: seq<Proc>, k: nat)
    requires k < |list|
    ensures Pids(list[..k + 1]) == Pids(list[..k]) + {list[k].pid} && list[k].pid in Pids(list)
  {
    assert list[..k + 1] == list[..k] + [list[k]];
    assert list[k] in list;
  }

  lemma PidOfEarlier(list: seq<Proc>, k: nat, i: nat)
    requires i < k <= |list|
    ensures list[i].pid in Pids(list[..k])
  {
    assert list[..k][i] in list[..k];
  }

  ghost predicate AgreeOff(pid: nat, t1: Tracks, n1: map<nat, int>, t: Tracks, n: map<nat, int>) {
    && (forall q | q != pid :: (q in t <==> q in t1) && (q in t ==> t[q] == t1[q]))
    && n.Keys == n1.Keys && (forall q | q != pid && q in n :: n[q] == n1[q])
  }

  lemma DealtStays(p: Proc, pid: nat, t0: Tracks, n0: map<nat, int>, t1: Tracks, n1: map<nat, int>,
                   t: Tracks, n: map<nat, int>, elapsedMs: nat, wants: Wants)
    requires elapsedMs > 0 && p.pid != pid && AgreeOff(pid, t1, n1, t, n) && Dealt(p, t0, n0, t1, n1, elapsedMs, wants)
    ensures Dealt(p, t0, n0, t, n, elapsedMs, wants) && (p.pid in t1 <==> p.pid in t)
  {
    hide TrackAfter, NiceThen;
  }

  lemma NewlyDealt(p: Proc, t0: Tracks, n0: map<nat, int>, t1: Tracks, n1: map<nat, int>,
                   t: Tracks, n: map<nat, int>, elapsedMs: nat, wants: Wants)
    requires elapsedMs > 0 && p.pid in n1 && n1.Keys == n0.Keys && n1[p.pid] == n0[p.pid]
    requires (p.pid in t1 <==> p.pid in t0) && (p.pid in t1 ==> t1[p.pid] == t0[p.pid])
    requires p.pid in t ==>
      && t == t1[p.pid :=
           TrackAfter(Known(t1, p.pid), p.ticks, elapsedMs, n1[p.pid], IsProtected(wants, p.pid), p.stuck)]
      && n == n1[p.pid := NiceThen(Known(t1, p.pid), p.ticks, elapsedMs, n1[p.pid], IsProtected(wants, p.pid), p.stuck)]
    requires p.pid !in t ==> t == t1 && n == n1
    ensures Dealt(p, t0, n0, t, n, elapsedMs, wants)
  {
    hide TrackAfter, NiceThen;
  }

  predicate Spins(p: Proc, t: Tracks, elapsedMs: nat)
    requires elapsedMs > 0
  {
    p.pid in t && Unboosted(t[p.pid].h).Some? && Sample(t[p.pid].ticks, p.ticks, elapsedMs).Hot?
  }

  predicate Rests(p: Proc, t: Tracks, elapsedMs: nat)
    requires elapsedMs > 0
  {
    p.pid in t && !p.stuck && Unboosted(t[p.pid].h).Some? && Sample(t[p.pid].ticks, p.ticks, elapsedMs).Calm?
  }

  /** The boost stays off, and the priority where it was. */
  ghost predicate IsHeld(pid: nat, t0: Tracks, n0: map<nat, int>, t: Tracks, n: map<nat, int>) {
    && pid in t0 && pid in t && pid in n0 && pid in n
    && n[pid] == n0[pid] && Unboosted(t[pid].h) == Unboosted(t0[pid].h)
  }

  /** The boost is back, exactly as it was taken. */
  ghost predicate IsGivenBack(pid: nat, t0: Tracks, t: Tracks, n: map<nat, int>) {
    pid in t0 && pid in t && pid in n && Unboosted(t0[pid].h) == Some(n[pid]) && Unboosted(t[pid].h) == None
  }

  lemma SpinStays(t: Track, now: nat, elapsedMs: nat, nice: int, protected: bool, stuck: bool)
    requires elapsedMs > 0 && Unboosted(t.h).Some? && Sample(t.ticks, now, elapsedMs).Hot? && Fair(t.h, protected)
    ensures NiceThen(t, now, elapsedMs, nice, protected, stuck) == nice
    ensures Unboosted(TrackAfter(t, now, elapsedMs, nice, protected, stuck).h) == Unboosted(t.h)
  {
    hide Fair, Looked, NiceAfter, Unboosted;
    StandingIsRight(t.h, protected);
    HotLook(t.h, elapsedMs / 1000, nice, protected, stuck);
  }

  lemma RestReturns(t: Track, now: nat, elapsedMs: nat, nice: int, protected: bool)
    requires elapsedMs > 0 && Unboosted(t.h).Some? && Sample(t.ticks, now, elapsedMs).Calm? && Fair(t.h, protected)
    ensures Some(NiceThen(t, now, elapsedMs, nice, protected, false)) == Unboosted(t.h)
    ensures Unboosted(TrackAfter(t, now, elapsedMs, nice, protected, false).h) == None
  {
    hide Fair, Looked, NiceAfter, Unboosted;
    CalmLook(t.h, elapsedMs / 1000, nice, protected, false);
  }
}
