/** Answering a fork bomb: which process group is taken, and who is signalled. */
module GuardStorm {
  import opened Optional

  const MAX_PROCS := 2048

  /** A listed process: its group, and whether it must not be killed. */
  datatype Proc = Proc(pid: int, pgid: int, protected: bool)

  predicate Counts(p: Proc, g: int) { p.pgid == g && !p.protected }

  /** How many listed processes of a group may be killed. */
  function Members(list: seq<Proc>, g: int): nat {
    if list == [] then 0 else Members(list[..|list| - 1], g) + if Counts(list[|list| - 1], g) then 1 else 0
  }

  /** Groups that may be taken: not those of nobody or init, and not our own. */
  predicate Eligible(g: int, mine: int) { g > 1 && g != mine }

  /** The right victim: an eligible group with the most members; none if none has any. */
  ghost predicate IsVictim(list: seq<Proc>, mine: int, r: Option<int>) {
    match r
    case None => forall g: int | Eligible(g, mine) :: Members(list, g) == 0
    case Some(t) =>
      && Eligible(t, mine) && Members(list, t) > 0
      && forall g: int | Eligible(g, mine) :: Members(list, g) <= Members(list, t)
  }

  /** A process that is counted at all. */
  predicate InAGroup(p: Proc) { p.pgid > 0 && !p.protected }

  /** Each group that has members stands in the table once, with their number. */
  ghost predicate Shows(list: seq<Proc>, pgs: seq<int>, counts: seq<nat>) {
    && |pgs| == |counts| <= |list|
    && (forall i, j | 0 <= i < j < |pgs| :: pgs[i] != pgs[j])
    && (forall i | 0 <= i < |pgs| :: pgs[i] > 0 && counts[i] == Members(list, pgs[i]) > 0)
    && (forall k | 0 <= k < |list| && InAGroup(list[k]) :: list[k].pgid in pgs)
  }

  lemma StillShows(list: seq<Proc>, p: Proc, pgs: seq<int>, counts: seq<nat>)
    requires Shows(list, pgs, counts) && !InAGroup(p)
    ensures Shows(list + [p], pgs, counts)
  {
    assert (list + [p])[..|list|] == list;
  }

  lemma ShowsOneMore(list: seq<Proc>, p: Proc, pgs: seq<int>, counts: seq<nat>, at: nat)
    requires Shows(list, pgs, counts) && InAGroup(p) && at < |pgs| && pgs[at] == p.pgid
    ensures Shows(list + [p], pgs, counts[at := counts[at] + 1])
  {
    assert (list + [p])[..|list|] == list;
  }

  lemma ShowsNewGroup(list: seq<Proc>, p: Proc, pgs: seq<int>, counts: seq<nat>)
    requires Shows(list, pgs, counts) && InAGroup(p) && p.pgid !in pgs
    ensures Shows(list + [p], pgs + [p.pgid], counts + [1])
  {
    assert (list + [p])[..|list|] == list;
    Absent(list, p.pgid, pgs);
    var all, cs := pgs + [p.pgid], counts + [1];
    forall i | 0 <= i < |all|
      ensures all[i] > 0 && cs[i] == Members(list + [p], all[i]) > 0
    {
      if i < |pgs| { assert all[i] == pgs[i] && pgs[i] in pgs; }
    }
    forall k | 0 <= k < |list + [p]| && InAGroup((list + [p])[k])
      ensures (list + [p])[k].pgid in all
    {
      if k == |list| { assert all[|pgs|] == p.pgid; }
    }
  }

  /** The table while it is filled. */
  class Histogram {
    const pg: array<int>
    const count: array<nat>
    var ngroups: nat

    ghost predicate Valid(list: seq<Proc>)
      reads this, pg, count
    {
      && pg.Length == MAX_PROCS && count.Length == MAX_PROCS && ngroups <= MAX_PROCS
      && Shows(list, pg[..ngroups], count[..ngroups])
    }

    constructor ()
      ensures Valid([]) && fresh(pg) && fresh(count)
    {
      pg := new int[MAX_PROCS];
      count := new nat[MAX_PROCS];
      ngroups := 0;
    }

    /** Counts one more process; with no more processes than places, each new group finds one. */
    method Add(p: Proc, ghost list: seq<Proc>)
      requires |list| < MAX_PROCS && Valid(list)
      modifies this, pg, count
      ensures Valid(list + [p])
    {
      hide Shows;
      ghost var pgs, counts := pg[..ngroups], count[..ngroups];
      if p.pgid <= 0 || p.protected {
        StillShows(list, p, pgs, counts);
        return;
      }
      var at := -1;
      for g := 0 to ngroups
        invariant at == -1 && forall i | 0 <= i < g :: pg[i] != p.pgid
      {
        if pg[g] == p.pgid {
          at := g;
          break;
        }
      }
      if at < 0 {
        NoMoreThan(list, pgs, counts);
        ShowsNewGroup(list, p, pgs, counts);
        at := ngroups;
        ngroups := ngroups + 1;
        pg[at] := p.pgid;
        count[at] := 0;
        count[at] := count[at] + 1;
        assert pg[..ngroups] == pgs + [p.pgid] && count[..ngroups] == counts + [1];
      } else {
        ShowsOneMore(list, p, pgs, counts, at);
        count[at] := count[at] + 1;
        assert pg[..ngroups] == pgs && count[..ngroups] == counts[at := counts[at] + 1];
      }
    }

    /** The group to take. Groups that may not be taken are struck out one after another. */
    method Choose(list: seq<Proc>, mine: int) returns (target: Option<int>, n: nat)
      requires Valid(list)
      modifies count
      ensures IsVictim(list, mine, target)
      ensures target.Some? ==> n == Members(list, target.value)
    {
      ghost var pgs, counts := pg[..ngroups], count[..ngroups];
      while true
        invariant forall i | 0 <= i < ngroups :: count[i] == counts[i] || (count[i] == 0 && !Eligible(pg[i], mine))
        decreases Left(count[..ngroups])
      {
        var best := -1;
        for g := 0 to ngroups
          invariant -1 <= best < g
          invariant if best < 0 then forall i | 0 <= i < g :: count[i] == 0
                    else count[best] > 0 && forall i | 0 <= i < g :: count[i] <= count[best]
        {
          if count[g] > 0 && (best < 0 || count[g] > count[best]) { best := g; }
        }
        if best < 0 {
          NoneLeft(list, pgs, counts, count[..ngroups], mine);
          return None, 0;
        }
        if pg[best] > 1 && pg[best] != mine {
          BestIsVictim(list, pgs, counts, count[..ngroups], mine, best);
          return Some(pg[best]), count[best];
        }
        ghost var before := count[..ngroups];
        count[best] := 0;
        assert count[..ngroups] == before[best := 0];
        StruckOut(before, best);
      }
    }
  }

  /** Groups still in the running. */
  ghost function Left(counts: seq<nat>): nat {
    if counts == [] then 0 else Left(counts[..|counts| - 1]) + if counts[|counts| - 1] > 0 then 1 else 0
  }

  lemma {:induction false} StruckOut(counts: seq<nat>, at: nat)
    requires at < |counts| && counts[at] > 0
    ensures Left(counts[at := 0]) == Left(counts) - 1
  {
    var n := |counts| - 1;
    if at < n {
      StruckOut(counts[..n], at);
      assert counts[at := 0][..n] == counts[..n][at := 0];
    } else {
      assert counts[at := 0][..n] == counts[..n];
    }
  }

  lemma NoMoreThan(list: seq<Proc>, pgs: seq<int>, counts: seq<nat>)
    requires Shows(list, pgs, counts)
    ensures |pgs| <= |list|
  {
  }

  /** A group without a place in the table has no members. */
  lemma OffTheTable(list: seq<Proc>, pgs: seq<int>, counts: seq<nat>, g: int)
    requires Shows(list, pgs, counts) && g > 0 && g !in pgs
    ensures Members(list, g) == 0
  {
    Absent(list, g, pgs);
  }

  lemma NoneLeft(list: seq<Proc>, pgs: seq<int>, counts: seq<nat>, now: seq<nat>, mine: int)
    requires Shows(list, pgs, counts) && |now| == |pgs|
    requires forall i | 0 <= i < |pgs| :: now[i] == counts[i] || (now[i] == 0 && !Eligible(pgs[i], mine))
    requires forall i | 0 <= i < |now| :: now[i] == 0
    ensures IsVictim(list, mine, None)
  {
    forall g: int | Eligible(g, mine)
      ensures Members(list, g) == 0
    {
      if g !in pgs { OffTheTable(list, pgs, counts, g); }
    }
  }

  lemma BestIsVictim(list: seq<Proc>, pgs: seq<int>, counts: seq<nat>, now: seq<nat>, mine: int, best: nat)
    requires Shows(list, pgs, counts) && |now| == |pgs| && best < |pgs|
    requires forall i | 0 <= i < |pgs| :: now[i] == counts[i] || (now[i] == 0 && !Eligible(pgs[i], mine))
    requires now[best] > 0 && forall i | 0 <= i < |now| :: now[i] <= now[best]
    requires Eligible(pgs[best], mine)
    ensures IsVictim(list, mine, Some(pgs[best])) && now[best] == Members(list, pgs[best])
  {
    forall g: int | Eligible(g, mine)
      ensures Members(list, g) <= Members(list, pgs[best])
    {
      if g in pgs {
        var i :| 0 <= i < |pgs| && pgs[i] == g;
        assert now[i] == counts[i];
      } else {
        OffTheTable(list, pgs, counts, g);
      }
    }
  }

  lemma {:induction false} Absent(list: seq<Proc>, g: int, pgs: seq<int>)
    requires g > 0 && g !in pgs
    requires forall k | 0 <= k < |list| && InAGroup(list[k]) :: list[k].pgid in pgs
    ensures Members(list, g) == 0
  {
    if list != [] {
      assert !Counts(list[|list| - 1], g);
      Absent(list[..|list| - 1], g, pgs);
    }
  }

  // ── Who is signalled ───────────────────────────────────────────────

  datatype Signal = Kill(pid: int) | KillGroup(g: int) | StopGroup(g: int) | ContGroup(g: int)

  /** The processes that are killed one by one: exactly the members of the group that may
      be, in the order of the list. */
  function Sweep(list: seq<Proc>, t: int): (r: seq<Signal>)
    ensures forall s | s in r :: exists i :: 0 <= i < |list| && s == Kill(list[i].pid) && Counts(list[i], t)
    ensures forall i | 0 <= i < |list| && Counts(list[i], t) :: Kill(list[i].pid) in r
    ensures |r| == Members(list, t)
  {
    if list == [] then []
    else
      var n := |list| - 1;
      Sweep(list[..n], t) + if Counts(list[n], t) then [Kill(list[n].pid)] else []
  }

  lemma NoGroupIn(list: seq<Proc>, t: int)
    ensures forall g: int :: KillGroup(g) !in Sweep(list, t)
  {
  }

  /** How many of the signals the kernel took. */
  function Hits(sent: seq<Signal>, ok: Signal -> bool): nat {
    if sent == [] then 0 else Hits(sent[..|sent| - 1], ok) + if ok(sent[|sent| - 1]) then 1 else 0
  }

  lemma {:induction false} HitsSplit(a: seq<Signal>, b: seq<Signal>, ok: Signal -> bool)
    ensures Hits(a + b, ok) == Hits(a, ok) + Hits(b, ok)
  {
    if b == [] {
      assert a + b == a;
    } else {
      HitsSplit(a, b[..|b| - 1], ok);
      assert (a + b)[..|a + b| - 1] == a + b[..|b| - 1];
    }
  }

  /** Whether the leader of a group must not be killed: by the list, or by asking about it. */
  function LeaderProtected(list: seq<Proc>, t: int, ask: int -> bool): bool {
    if list == [] then ask(t) else if list[0].pid == t then list[0].protected else LeaderProtected(list[1..], t, ask)
  }

  /** A listed leader is protected exactly if the list says so; one that is not listed, if asking says so. */
  lemma {:induction false} LeaderMeans(list: seq<Proc>, t: int, ask: int -> bool)
    ensures (forall i | 0 <= i < |list| :: list[i].pid != t) ==> LeaderProtected(list, t, ask) == ask(t)
    ensures forall i | 0 <= i < |list| && list[i].pid == t && (forall j | 0 <= j < i :: list[j].pid != t) ::
      LeaderProtected(list, t, ask) == list[i].protected
    decreases |list|
  {
    if list != [] && list[0].pid != t {
      var rest := list[1..];
      LeaderMeans(rest, t, ask);
      forall i | 0 <= i < |list| && list[i].pid == t && (forall j | 0 <= j < i :: list[j].pid != t)
        ensures LeaderProtected(list, t, ask) == list[i].protected
      {
        assert rest[i - 1] == list[i] && forall j | 0 <= j < i - 1 :: rest[j] == list[j + 1];
      }
    }
  }

  method LeaderIsProtected(list: seq<Proc>, t: int, ask: int -> bool) returns (yes: bool)
    ensures yes == LeaderProtected(list, t, ask)
  {
    for i := 0 to |list|
      invariant LeaderProtected(list, t, ask) == LeaderProtected(list[i..], t, ask)
    {
      if list[i].pid == t { return list[i].protected; }
    }
    yes := ask(t);
  }

  method KillListed(list: seq<Proc>, t: int, ok: Signal -> bool) returns (hit: nat, sent: seq<Signal>)
    ensures sent == Sweep(list, t) && hit == Hits(sent, ok)
  {
    hit, sent := 0, [];
    for i := 0 to |list|
      invariant sent == Sweep(list[..i], t) && hit == Hits(sent, ok)
    {
      assert list[..i + 1][..i] == list[..i];
      if list[i].pgid != t || list[i].protected { continue; }
      var s := Kill(list[i].pid);
      ghost var before := sent;
      sent := sent + [s];
      assert sent[..|sent| - 1] == before;
      if ok(s) { hit := hit + 1; }
    }
    assert list[..|list|] == list;
  }

  /** Takes the biggest group that may be taken: whole, if its leader may be killed, and
      otherwise stopped, swept twice and continued. `again` is what the second scan finds;
      `ok` says which signals the kernel takes. */
  method KillBiggestGroup(list: seq<Proc>, mine: int, ask: int -> bool, ok: Signal -> bool, again: seq<Proc>)
    returns (hit: nat, sent: seq<Signal>, target: Option<int>)
    requires |list| <= MAX_PROCS
    ensures IsVictim(list, mine, target)
    ensures target.None? ==> hit == 0 && sent == []
    ensures target.Some? ==>
      var t := target.value;
      if LeaderProtected(list, t, ask) then
        && sent == [StopGroup(t)] + (Sweep(list, t) + Sweep(again, t)) + [ContGroup(t)]
        && hit == Hits(Sweep(list, t) + Sweep(again, t), ok)
      else if ok(KillGroup(t)) then sent == [KillGroup(t)] && hit == Members(list, t)
      else sent == [KillGroup(t)] + Sweep(list, t) && hit == Hits(Sweep(list, t), ok)
    ensures forall i | 0 <= i < |list| && list[i].protected && (forall j | 0 <= j < i :: list[j].pid != list[i].pid) ::
      KillGroup(list[i].pid) !in sent
  {
    hide Shows, IsVictim, Sweep, Hits;
    var h := new Histogram();
    for i := 0 to |list|
      invariant fresh(h) && fresh(h.pg) && fresh(h.count) && h.Valid(list[..i])
    {
      h.Add(list[i], list[..i]);
      assert list[..i + 1] == list[..i] + [list[i]];
    }
    assert list[..|list|] == list;
    var count;
    target, count := h.Choose(list, mine);
    if target.None? { return 0, [], target; }
    var t := target.value;
    var leader := LeaderIsProtected(list, t, ask);
    LeaderMeans(list, t, ask);
    NoGroupIn(list, t);
    NoGroupIn(again, t);
    if !leader {
      sent := [KillGroup(t)];
      if ok(KillGroup(t)) { return count, sent, target; }
    } else {
      sent := [StopGroup(t)];
    }
    var kills;
    hit, kills := KillListed(list, t, ok);
    sent := sent + kills;
    if leader {
      var more, late := KillListed(again, t, ok);
      HitsSplit(kills, late, ok);
      hit, sent := hit + more, sent + late + [ContGroup(t)];
    }
  }
}
