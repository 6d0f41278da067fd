/** What the guard does over a run, told from the readings alone: how many ticks a process had at
    each look, and how much time lay between. */
module GuardRuns {
  import opened Optional
  import opened GuardHistory
  import opened GuardWatch

  // ── One sample ─────────────────────────────────────────────────────

  /** Ninety per cent of the ticks that one core has in the time. */
  predicate IsShare(used: nat, elapsedMs: nat) {
    var have := elapsedMs / 10;
    have > 0 && used * 100 >= 90 * have
  }

  /** A process is hot exactly when it used that share of a core since the reading before. */
  lemma SampleMeans(prev: nat, now: nat, elapsedMs: nat)
    requires elapsedMs > 0
    ensures Sample(prev, now, elapsedMs) ==
      if prev == 0 || now < prev then Blind
      else if IsShare(now - prev, elapsedMs) then Hot(elapsedMs / 1000) else Calm(elapsedMs / 1000)
  {
    assert elapsedMs * TICKS_PER_SEC / 1000 == elapsedMs / 10;
    var have := elapsedMs / 10;
    if have > 0 && prev <= now { PerCent((now - prev) * 100, have, HOG_PERCENT); }
  }

  lemma PerCent(x: nat, have: nat, share: nat)
    requires have > 0
    ensures x / have < share <==> x < share * have
  {
    var q, r := x / have, x % have;
    assert x == have * q + r;
    if q < share {
      assert have * (q + 1) <= have * share;
    } else {
      assert have * q >= have * share;
    }
  }

  // ── Readings in a run ──────────────────────────────────────────────

  /** Whether processes are looked at in this round. */
  predicate IsLook(s: State, r: Round) { r.slow && s.sinceCpu >= SLOW_MS }

  function ProcIn(list: seq<Proc>, q: nat): Option<Proc> {
    if list == [] then None
    else if list[|list| - 1].pid == q then Some(list[|list| - 1]) else ProcIn(list[..|list| - 1], q)
  }

  lemma {:induction false} ProcFound(list: seq<Proc>, p: Proc)
    requires Distinct(list) && p in list
    ensures ProcIn(list, p.pid) == Some(p)
    decreases |list|
  {
    var n := |list| - 1;
    if list[n] != p {
      var k :| 0 <= k < n && list[k] == p;
      assert list[..n][k] == p;
      ProcFound(list[..n], p);
    }
  }

  /** The ticks of a process when it was last looked at before round `k`, zero if it was not there. */
  function Reading(run: seq<State>, rounds: seq<Round>, q: nat, k: nat): nat
    requires k <= |rounds| < |run|
  {
    if k == 0 then if q in run[0].tracks then run[0].tracks[q].ticks else 0
    else if !IsLook(run[k - 1], rounds[k - 1]) then Reading(run, rounds, q, k - 1)
    else if q !in run[k].tracks || ProcIn(rounds[k - 1].list, q).None? then 0
    else ProcIn(rounds[k - 1].list, q).value.ticks
  }

  /** In round `k` the process was looked at, and there was a reading to compare with. */
  predicate Compared(run: seq<State>, rounds: seq<Round>, q: nat, k: nat)
    requires k < |rounds| < |run|
  {
    && IsLook(run[k], rounds[k]) && q in run[k + 1].tracks && ProcIn(rounds[k].list, q).Some?
    && 0 < Reading(run, rounds, q, k) <= ProcIn(rounds[k].list, q).value.ticks
  }

  /** Its ticks had risen by the share of a core. */
  predicate SpinsAt(run: seq<State>, rounds: seq<Round>, q: nat, k: nat)
    requires k < |rounds| < |run|
  {
    && Compared(run, rounds, q, k)
    && IsShare(ProcIn(rounds[k].list, q).value.ticks - Reading(run, rounds, q, k), run[k].sinceCpu)
  }

  /** They had risen by less. */
  predicate RestsAt(run: seq<State>, rounds: seq<Round>, q: nat, k: nat)
    requires k < |rounds| < |run|
  {
    Compared(run, rounds, q, k) && !SpinsAt(run, rounds, q, k)
  }

  /** The seconds, before round `k`, for which each look has shown the process spinning. */
  function SpunFor(run: seq<State>, rounds: seq<Round>, q: nat, k: nat): nat
    requires k <= |rounds| < |run|
  {
    if k == 0 then HotRun(Known(run[0].tracks, q).h)
    else if !IsLook(run[k - 1], rounds[k - 1]) then SpunFor(run, rounds, q, k - 1)
    else if SpinsAt(run, rounds, q, k - 1) then SpunFor(run, rounds, q, k - 1) + run[k - 1].sinceCpu / 1000
    else 0
  }

  /** The seconds of the looks that have shown it at rest since the last one that showed it spinning. */
  function RestedFor(run: seq<State>, rounds: seq<Round>, q: nat, k: nat): nat
    requires k <= |rounds| < |run|
  {
    if k == 0 then CalmRun(Known(run[0].tracks, q).h)
    else if !IsLook(run[k - 1], rounds[k - 1]) then RestedFor(run, rounds, q, k - 1)
    else if q !in run[k].tracks || SpinsAt(run, rounds, q, k - 1) then 0
    else RestedFor(run, rounds, q, k - 1) + if RestsAt(run, rounds, q, k - 1) then run[k - 1].sinceCpu / 1000 else 0
  }

  // ── What a round decides ───────────────────────────────────────────

  /** What happened to a process before a round, as it is known to the guard. */
  function Past(s: State, q: nat): History { Known(s.tracks, q).h }

  ghost predicate Sounds(rounds: seq<Round>) { forall r | r in rounds :: r.Sound() }

  /** The history of a process behind a look at it. */
  lemma LookedAt(run: seq<State>, rounds: seq<Round>, wants: Wants, q: nat, k: nat) returns (p: Proc)
    requires IsRun(run, rounds, wants) && Sounds(rounds) && k < |rounds| && IsLook(run[k], rounds[k])
    requires q in run[k + 1].tracks
    ensures ProcIn(rounds[k].list, q) == Some(p) && p.pid == q
    ensures var n1 := Applied(rounds[k].list, run[k].tracks, wants, rounds[k].nice);
      && q in n1 && q in run[k + 1].nice
      && run[k + 1].tracks[q] ==
           TrackAfter(Known(run[k].tracks, q), p.ticks, run[k].sinceCpu, n1[q], IsProtected(wants, q), p.stuck)
      && run[k + 1].nice[q] ==
           NiceThen(Known(run[k].tracks, q), p.ticks, run[k].sinceCpu, n1[q], IsProtected(wants, q), p.stuck)
  {
    hide Passed, Applied, TrackAfter, NiceThen, Pids, ProcIn, AllFair;
    var (s, r, next) := (run[k], rounds[k], run[k + 1]);
    assert Follows(s, r, next, wants) && r in rounds;
    var n1 := Applied(r.list, s.tracks, wants, r.nice);
    p := WasListed(r.list, q, s.tracks, n1, next.tracks, next.nice, s.sinceCpu, wants);
    ProcFound(r.list, p);
  }

  /** Between looks nothing is learnt. */
  lemma NotLookedAt(s: State, r: Round, next: State, wants: Wants)
    requires Follows(s, r, next, wants) && !IsLook(s, r)
    ensures next.tracks == s.tracks
  {
    hide Applied;
  }

  lemma {:induction false} ReadingIs(run: seq<State>, rounds: seq<Round>, wants: Wants, q: nat, k: nat)
    requires IsRun(run, rounds, wants) && Sounds(rounds) && k <= |rounds|
    ensures Known(run[k].tracks, q).ticks == Reading(run, rounds, q, k)
  {
    hide Follows, Sounds, AllFair, TrackAfter, NiceThen, Applied;
    if k > 0 {
      ReadingIs(run, rounds, wants, q, k - 1);
      if !IsLook(run[k - 1], rounds[k - 1]) {
        NotLookedAt(run[k - 1], rounds[k - 1], run[k], wants);
      } else if q in run[k].tracks {
        var p := LookedAt(run, rounds, wants, q, k - 1);
        TicksAfter(Known(run[k - 1].tracks, q), p.ticks, run[k - 1].sinceCpu,
                   Applied(rounds[k - 1].list, run[k - 1].tracks, wants, rounds[k - 1].nice)[q], IsProtected(wants, q),
                   p.stuck);
      }
    }
  }

  lemma TicksAfter(t: Track, now: nat, elapsedMs: nat, nice: int, protected: bool, stuck: bool)
    requires elapsedMs > 0
    ensures TrackAfter(t, now, elapsedMs, nice, protected, stuck).ticks == now
  {
  }

  /** What a look sees, told from the readings. */
  lemma SeenAt(run: seq<State>, rounds: seq<Round>, wants: Wants, q: nat, k: nat) returns (p: Proc, n: int)
    requires IsRun(run, rounds, wants) && Sounds(rounds) && k < |rounds| && IsLook(run[k], rounds[k])
    requires q in run[k + 1].tracks
    ensures ProcIn(rounds[k].list, q) == Some(p)
    ensures var n1 := Applied(rounds[k].list, run[k].tracks, wants, rounds[k].nice); q in n1 && n == n1[q]
    ensures var secs := run[k].sinceCpu / 1000;
      var e := if SpinsAt(run, rounds, q, k) then Hot(secs) else if RestsAt(run, rounds, q, k) then Calm(secs)
        else Blind;
      && Past(run[k + 1], q) == Looked(Past(run[k], q), e, n, IsProtected(wants, q), p.stuck)
      && q in run[k + 1].nice
      && run[k + 1].nice[q] == NiceAfter(Past(run[k], q), e, n, IsProtected(wants, q), p.stuck)
  {
    hide Follows, AllFair, Sounds, Applied, Looked, NiceAfter, Sample, IsShare, Reading;
    p := LookedAt(run, rounds, wants, q, k);
    n := Applied(rounds[k].list, run[k].tracks, wants, rounds[k].nice)[q];
    ReadingIs(run, rounds, wants, q, k);
    SampleMeans(Known(run[k].tracks, q).ticks, p.ticks, run[k].sinceCpu);
  }

  /** The counts that the guard keeps of a process are those of its readings. */
  lemma {:induction false} CountsAre(run: seq<State>, rounds: seq<Round>, wants: Wants, q: nat, k: nat)
    requires IsRun(run, rounds, wants) && Sounds(rounds) && k <= |rounds|
    ensures HotRun(Past(run[k], q)) == SpunFor(run, rounds, q, k)
    ensures CalmRun(Past(run[k], q)) == RestedFor(run, rounds, q, k)
  {
    hide Follows, Sounds, Looked, NiceAfter, SpinsAt, Compared, Applied, HotRun, CalmRun, Fair;
    if k > 0 {
      var (s, r, next) := (run[k - 1], rounds[k - 1], run[k]);
      CountsAre(run, rounds, wants, q, k - 1);
      if !IsLook(s, r) {
        NotLookedAt(s, r, next, wants);
      } else if q in next.tracks {
        var p, n := SeenAt(run, rounds, wants, q, k - 1);
        KnownFair(s.tracks, wants, q);
        OneLook(Past(s, q), s.sinceCpu / 1000, n, IsProtected(wants, q), p.stuck);
      } else {
        assert !SpinsAt(run, rounds, q, k - 1) by { GoneDoesNotSpin(run, rounds, q, k - 1); }
        NothingStands();
      }
    }
  }

  lemma GoneDoesNotSpin(run: seq<State>, rounds: seq<Round>, q: nat, k: nat)
    requires k < |rounds| < |run| && q !in run[k + 1].tracks
    ensures !SpinsAt(run, rounds, q, k)
  {
  }

  /** The three kinds of look, side by side. */
  lemma OneLook(h: History, secs: nat, nice: int, protected: bool, stuck: bool)
    requires Fair(h, protected)
    ensures var g := Looked(h, Hot(secs), nice, protected, stuck);
      HotRun(g) == HotRun(h) + secs && CalmRun(g) == 0
    ensures var g := Looked(h, Calm(secs), nice, protected, stuck);
      HotRun(g) == 0 && CalmRun(g) == CalmRun(h) + secs
    ensures var g := Looked(h, Blind, nice, protected, stuck);
      HotRun(g) == 0 && CalmRun(g) == CalmRun(h)
  {
    hide Looked, NiceAfter, HotRun, CalmRun, Demoted, Unboosted, Announced, Fair;
    HotLook(h, secs, nice, protected, stuck);
    CalmLook(h, secs, nice, protected, stuck);
    BlindLook(h, nice, protected, stuck);
  }

  /** Over every run, what a look does to a process follows from its readings alone: it is demoted, or
      loses its boost, exactly when its ticks have risen by the share of a core in looks over the last
      30 s and nothing stands against it; and it gets back what was taken exactly when they have risen
      by less, a boost at once and a priority after 30 s of such looks. */
  lemma RoundDecides(run: seq<State>, rounds: seq<Round>, wants: Wants, q: nat, k: nat) returns (p: Proc, n: int)
    requires IsRun(run, rounds, wants) && Sounds(rounds) && k < |rounds| && IsLook(run[k], rounds[k])
    requires q in run[k + 1].tracks
    ensures ProcIn(rounds[k].list, q) == Some(p)
    ensures var n1 := Applied(rounds[k].list, run[k].tracks, wants, rounds[k].nice); q in n1 && n == n1[q]
    ensures var (h, g) := (Past(run[k], q), Past(run[k + 1], q));
      var hog := SpinsAt(run, rounds, q, k) && SpunFor(run, rounds, q, k + 1) >= HOG_SECONDS && !p.stuck;
      var demote, unboost := hog && !IsProtected(wants, q) && Demoted(h).None? && n < NICE_HOG,
                             hog && IsProtected(wants, q) && Unboosted(h).None? && n < 0;
      var calm := RestsAt(run, rounds, q, k);
      var settled := calm && RestedFor(run, rounds, q, k + 1) >= HOG_SECONDS;
      && Demoted(g) == (if demote then Some(n) else if settled then None else Demoted(h))
      && Unboosted(g) == (if unboost then Some(n) else if calm then None else Unboosted(h))
      && q in run[k + 1].nice
      && run[k + 1].nice[q] ==
           if p.stuck then n
           else if demote then NICE_HOG
           else if unboost then 0
           else if calm && Unboosted(h).Some? then Unboosted(h).value
           else if settled && Demoted(h).Some? then Demoted(h).value
           else n
  {
    hide Follows, AllFair, Sounds, Looked, NiceAfter, SpinsAt, Compared, Applied, HotRun, CalmRun, Fair, Demoted,
         Unboosted;
    p, n := SeenAt(run, rounds, wants, q, k);
    CountsAre(run, rounds, wants, q, k);
    var h := Past(run[k], q);
    FairAt(run, rounds, wants, q, k);
    HotLook(h, run[k].sinceCpu / 1000, n, IsProtected(wants, q), p.stuck);
    CalmLook(h, run[k].sinceCpu / 1000, n, IsProtected(wants, q), p.stuck);
    BlindLook(h, n, IsProtected(wants, q), p.stuck);
  }

  lemma FairAt(run: seq<State>, rounds: seq<Round>, wants: Wants, q: nat, k: nat)
    requires IsRun(run, rounds, wants) && k <= |rounds|
    ensures Fair(Past(run[k], q), IsProtected(wants, q))
  {
    hide Fair, Follows;
    KnownFair(run[k].tracks, wants, q);
  }
}
