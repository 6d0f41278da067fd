/** The policy on processes that hold a core, stated over everything seen of one process:
    which samples, and what was done about them. */
module GuardHistory {
  import opened Optional

  const TICKS_PER_SEC := 100
  const HOG_PERCENT := 90
  const HOG_SECONDS := 30
  const HOG_NOTICE_SECONDS := 10
  const NICE_HOG := 10

  /** A look at the process, or something done about it. A blind look had nothing to
      compare with. */
  datatype Event =
    | Hot(secs: nat) | Calm(secs: nat) | Blind
    | Notice | Demote(was: int) | Restore(to: int) | Unboost(was: int) | Reboost(to: int)

  type History = seq<Event>

  function Before(h: History): History
    requires h != []
  {
    h[..|h| - 1]
  }

  function Last(h: History): Event
    requires h != []
  {
    h[|h| - 1]
  }

  /** The seconds of the hot samples that nothing has interrupted so far. */
  function HotRun(h: History): nat {
    if h == [] then 0
    else
      match Last(h)
      case Hot(s) => s + HotRun(Before(h))
      case Calm(_) => 0
      case Blind => 0
      case _ => HotRun(Before(h))
  }

  /** The seconds of the calm samples since the last hot one. */
  function CalmRun(h: History): nat {
    if h == [] then 0
    else
      match Last(h)
      case Calm(s) => s + CalmRun(Before(h))
      case Hot(_) => 0
      case _ => CalmRun(Before(h))
  }

  /** What the process ran at before a demotion that still stands. */
  function Demoted(h: History): Option<int> {
    if h == [] then None
    else
      match Last(h)
      case Demote(was) => Some(was)
      case Restore(_) => None
      case _ => Demoted(Before(h))
  }

  /** What it ran at before its boost was taken away, while it still is. */
  function Unboosted(h: History): Option<int> {
    if h == [] then None
    else
      match Last(h)
      case Unboost(was) => Some(was)
      case Reboost(_) => None
      case _ => Unboosted(Before(h))
  }

  /** Whether it was said that this one is spinning. */
  predicate Announced(h: History) {
    h != [] && match Last(h)
      case Notice => true
      case Calm(_) => false
      case _ => Announced(Before(h))
  }

  /** What one look sees: the share of a core since the reading before. */
  function Sample(prev: nat, now: nat, elapsedMs: nat): Event
    requires elapsedMs > 0
  {
    if prev == 0 || now < prev then Blind
    else
      var have := elapsedMs * TICKS_PER_SEC / 1000;
      var percent := if have > 0 then (now - prev) * 100 / have else 0;
      if percent < HOG_PERCENT then Calm(elapsedMs / 1000) else Hot(elapsedMs / 1000)
  }

  predicate IsSample(e: Event) { e.Hot? || e.Calm? || e.Blind? }

  /** What is due once a sample has come in, for a process that runs at `nice`. One is stuck when
      the kernel does not let its priority be set: it is not demoted then, but what stands is
      still taken back. */
  function Due(h: History, nice: int, protected: bool, stuck: bool): History
    requires h != []
  {
    match Last(h)
    case Calm(_) =>
      (if Unboosted(h).Some? then [Reboost(Unboosted(h).value)] else [])
      + (if Demoted(h).Some? && CalmRun(h) >= HOG_SECONDS then [Restore(Demoted(h).value)] else [])
    case Hot(_) =>
      (if HotRun(h) >= HOG_NOTICE_SECONDS && !Announced(h) then [Notice] else [])
      + (if HotRun(h) < HOG_SECONDS then []
         else if protected then if Unboosted(h).None? && nice < 0 && !stuck then [Unboost(nice)] else []
         else if Demoted(h).None? && nice < NICE_HOG && !stuck then [Demote(nice)] else [])
    case _ => []
  }

  /** The priority behind what was done. */
  function Play(nice: int, done: History): int
    decreases |done|
  {
    if done == [] then nice
    else
      match Last(done)
      case Demote(_) => NICE_HOG
      case Unboost(_) => 0
      case Restore(to) => to
      case Reboost(to) => to
      case _ => Play(nice, Before(done))
  }

  /** One look: the sample, and what is done about it. */
  function Looked(h: History, sample: Event, nice: int, protected: bool, stuck: bool): History {
    h + [sample] + Due(h + [sample], nice, protected, stuck)
  }

  function NiceAfter(h: History, sample: Event, nice: int, protected: bool, stuck: bool): int {
    if stuck then nice else Play(nice, Due(h + [sample], nice, protected, stuck))
  }

  // ── What the policy keeps over every run ───────────────────────────

  /** Nothing was ever done without cause, and everything is given back as it was. */
  predicate Fair(h: History, protected: bool) {
    h == [] || (Fair(Before(h), protected) && Just(Before(h), Last(h), protected))
  }

  /** Whether an event is right after what came before. */
  predicate Just(h: History, e: Event, protected: bool) {
    match e
    case Demote(was) => !protected && was < NICE_HOG && HotRun(h) >= HOG_SECONDS && Demoted(h).None?
    case Restore(to) => !protected && CalmRun(h) >= HOG_SECONDS && Demoted(h) == Some(to)
    case Unboost(was) => protected && was < 0 && HotRun(h) >= HOG_SECONDS && Unboosted(h).None?
    case Reboost(to) => protected && to < 0 && h != [] && Last(h).Calm? && Unboosted(h) == Some(to)
    case _ => true
  }

  lemma Appended(h: History, e: Event)
    ensures Before(h + [e]) == h && Last(h + [e]) == e
  {
  }

  /** Every look keeps a fair history fair. */
  lemma LookIsFair(h: History, sample: Event, nice: int, protected: bool, stuck: bool)
    requires Fair(h, protected) && IsSample(sample)
    ensures Fair(Looked(h, sample, nice, protected, stuck), protected)
  {
    hide Fair, Due;
    var g := h + [sample];
    FairAfter(h, sample, protected);
    WhatIsDue(g, nice, protected, stuck);
    StandingIsRight(g, protected);
    var due := Due(g, nice, protected, stuck);
    if due == [] {
      assert g + due == g;
    } else if |due| == 1 {
      FairAfter(g, due[0], protected);
      assert g + due == g + [due[0]];
    } else {
      FairAfter(g, due[0], protected);
      Appended(g, due[0]);
      FairAfter(g + [due[0]], due[1], protected);
      assert g + due == g + [due[0]] + [due[1]];
    }
  }

  lemma FairAfter(h: History, e: Event, protected: bool)
    requires Fair(h, protected) && Just(h, e, protected)
    ensures Fair(h + [e], protected)
  {
    Appended(h, e);
  }

  /** A protected process is never demoted, one that is not never loses a boost. */
  lemma {:induction false} StandingIsRight(h: History, protected: bool)
    requires Fair(h, protected)
    ensures Demoted(h).Some? ==> !protected && Demoted(h).value < NICE_HOG
    ensures Unboosted(h).Some? ==> protected && Unboosted(h).value < 0
  {
    if h != [] { StandingIsRight(Before(h), protected); }
  }

  lemma WhatIsDue(h: History, nice: int, protected: bool, stuck: bool)
    requires h != [] && Fair(h, protected)
    ensures var due := Due(h, nice, protected, stuck);
      && |due| <= 2
      && (|due| >= 1 ==> Just(h, due[0], protected))
      && (|due| == 2 ==> Just(h + [due[0]], due[1], protected))
  {
    hide Fair;
    StandingIsRight(h, protected);
    var due := Due(h, nice, protected, stuck);
    if |due| >= 1 { Appended(h, due[0]); }
  }

  // ── What one look changes ──────────────────────────────────────────

  /** A blind look starts the count of hot seconds again and changes nothing else. */
  lemma BlindLook(h: History, nice: int, protected: bool, stuck: bool)
    ensures NiceAfter(h, Blind, nice, protected, stuck) == nice
    ensures var g := Looked(h, Blind, nice, protected, stuck);
      && HotRun(g) == 0 && CalmRun(g) == CalmRun(h) && Announced(g) == Announced(h)
      && Demoted(g) == Demoted(h) && Unboosted(g) == Unboosted(h)
  {
    Appended(h, Blind);
    assert h + [Blind] + [] == h + [Blind];
  }

  /** A calm look gives a boost back at once, exactly as it was, and takes a demotion back,
      exactly, once the calm has lasted. */
  lemma CalmLook(h: History, secs: nat, nice: int, protected: bool, stuck: bool)
    requires Fair(h, protected)
    ensures NiceAfter(h, Calm(secs), nice, protected, stuck) ==
      if stuck then nice
      else if Unboosted(h).Some? then Unboosted(h).value
      else if Demoted(h).Some? && CalmRun(h) + secs >= HOG_SECONDS then Demoted(h).value
      else nice
    ensures var g := Looked(h, Calm(secs), nice, protected, stuck);
      && HotRun(g) == 0 && CalmRun(g) == CalmRun(h) + secs && !Announced(g) && Unboosted(g) == None
      && Demoted(g) == if CalmRun(h) + secs >= HOG_SECONDS then None else Demoted(h)
  {
    var e := Calm(secs);
    var g := h + [e];
    Appended(h, e);
    StandingIsRight(h, protected);
    if Unboosted(h).Some? {
      One(g, Reboost(Unboosted(h).value), nice, protected, stuck);
    } else if Demoted(h).Some? && CalmRun(h) + secs >= HOG_SECONDS {
      One(g, Restore(Demoted(h).value), nice, protected, stuck);
    } else {
      assert Due(g, nice, protected, stuck) == [] && g + [] == g;
    }
  }

  lemma One(g: History, e: Event, nice: int, protected: bool, stuck: bool)
    requires g != [] && Due(g, nice, protected, stuck) == [e]
    ensures Before(g + Due(g, nice, protected, stuck)) == g && Last(g + Due(g, nice, protected, stuck)) == e
    ensures Before([e]) == []
  {
    hide Due;
    Appended(g, e);
    Appended([], e);
    assert [] + [e] == [e];
  }

  /** A hot look demotes a hog that is not protected, once it has been hot for as long, and
      takes the boost from a protected one; one that has lost it stays where it is. */
  lemma HotLook(h: History, secs: nat, nice: int, protected: bool, stuck: bool)
    ensures var hog := HotRun(h) + secs >= HOG_SECONDS;
      var demote, unboost := hog && !protected && Demoted(h).None? && nice < NICE_HOG && !stuck,
                             hog && protected && Unboosted(h).None? && nice < 0 && !stuck;
      var g := Looked(h, Hot(secs), nice, protected, stuck);
      && NiceAfter(h, Hot(secs), nice, protected, stuck) == (if demote then NICE_HOG else if unboost then 0 else nice)
      && HotRun(g) == HotRun(h) + secs && CalmRun(g) == 0
      && Announced(g) == (Announced(h) || HotRun(h) + secs >= HOG_NOTICE_SECONDS)
      && Demoted(g) == (if demote then Some(nice) else Demoted(h))
      && Unboosted(g) == (if unboost then Some(nice) else Unboosted(h))
  {
    hide HotRun, CalmRun, Announced, Demoted, Unboosted, Play;
    var g := h + [Hot(secs)];
    Appended(h, Hot(secs));
    Counts(h, Hot(secs));
    var due := Due(g, nice, protected, stuck);
    var first := if HotRun(g) >= HOG_NOTICE_SECONDS && !Announced(g) then [Notice] else [];
    var second :=
      if HotRun(g) < HOG_SECONDS then []
      else if protected then if Unboosted(g).None? && nice < 0 && !stuck then [Unboost(nice)] else []
      else if Demoted(g).None? && nice < NICE_HOG && !stuck then [Demote(nice)] else [];
    assert due == first + second;
    if first == [] {
      assert g + first == g;
      Plays(nice, [], Notice);
    } else {
      Counts(g, Notice);
      Plays(nice, [], Notice);
      assert [] + [Notice] == [Notice];
    }
    if second == [] {
      assert due == first && g + due == g + first;
    } else {
      Counts(g + first, second[0]);
      Plays(nice, first, second[0]);
      assert g + due == g + first + [second[0]] && due == first + [second[0]];
    }
  }

  lemma Plays(nice: int, done: History, e: Event)
    ensures Play(nice, []) == nice
    ensures Play(nice, done + [e]) ==
      match e
      case Demote(_) => NICE_HOG
      case Unboost(_) => 0
      case Restore(to) => to
      case Reboost(to) => to
      case _ => Play(nice, done)
  {
    Appended(done, e);
  }

  /** What one more event changes. */
  lemma Counts(h: History, e: Event)
    ensures HotRun(h + [e]) ==
      match e case Hot(s) => s + HotRun(h) case Calm(_) => 0 case Blind => 0 case _ => HotRun(h)
    ensures CalmRun(h + [e]) == (match e case Calm(s) => s + CalmRun(h) case Hot(_) => 0 case _ => CalmRun(h))
    ensures Announced(h + [e]) == (match e case Notice => true case Calm(_) => false case _ => Announced(h))
    ensures Demoted(h + [e]) == (match e case Demote(w) => Some(w) case Restore(_) => None case _ => Demoted(h))
    ensures Unboosted(h + [e]) == (match e case Unboost(w) => Some(w) case Reboost(_) => None case _ => Unboosted(h))
  {
    Appended(h, e);
  }
}
