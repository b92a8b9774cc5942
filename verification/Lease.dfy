/**
 * The keeper's leader lock: one row holding a holder id and an expiry. A keeper reads the clock,
 * test-and-sets the row in a transaction, trades, and deletes the row if it is still its own.
 * Many keepers interleave these steps, and any of them may crash between two steps.
 */
module Lease {
  import opened Wrappers

  const TTL: nat := 120_000

  datatype Lock = Lock(holder: string, exp: nat)

  predicate Blocked(row: Option<Lock>, holder: string, now: nat) {
    row.Some? && row.value.exp > now && row.value.holder != holder
  }

  function Acquired(row: Option<Lock>, holder: string, now: nat, ttl: nat): Option<Lock> {
    if Blocked(row, holder, now) then row else Some(Lock(holder, now + ttl))
  }

  function Released(row: Option<Lock>, holder: string): Option<Lock> {
    if row.Some? && row.value.holder == holder then None else row
  }

  /** Where a keeper is in its tick. `Dead` remembers a grant that was never released. */
  datatype Phase = Ready | ClockRead(now: nat) | Holding(exp: nat) | Over | Dead(grant: Option<nat>)

  datatype State = State(clock: nat, row: Option<Lock>, keepers: map<string, Phase>)

  datatype Action =
    | Advance(ms: nat)
    | ReadClock(holder: string)
    | Acquire(holder: string)
    | AcquireFails(holder: string)
    | Release(holder: string)
    | Crash(holder: string)

  function PhaseOf(s: State, holder: string): Phase {
    if holder in s.keepers then s.keepers[holder] else Ready
  }

  /** An expiry this holder was granted and has not given back. */
  function GrantOf(s: State, holder: string): Option<nat> {
    match PhaseOf(s, holder)
    case Holding(exp) => Some(exp)
    case Dead(grant) => grant
    case _ => None
  }

  function Move(s: State, holder: string, p: Phase): State {
    s.(keepers := s.keepers[holder := p])
  }

  /** One step; an action whose keeper is not at that point of its tick does nothing. */
  function Step(s: State, a: Action): State {
    match a
    case Advance(ms) => s.(clock := s.clock + ms)
    case ReadClock(h) => if PhaseOf(s, h).Ready? then Move(s, h, ClockRead(s.clock)) else s
    case Acquire(h) =>
      if !PhaseOf(s, h).ClockRead? then s
      else
        var now := PhaseOf(s, h).now;
        if Blocked(s.row, h, now) then Move(s, h, Over)
        else Move(s, h, Holding(now + TTL)).(row := Acquired(s.row, h, now, TTL))
    case AcquireFails(h) => if PhaseOf(s, h).ClockRead? then Move(s, h, Over) else s
    case Release(h) =>
      if PhaseOf(s, h).Holding? then Move(s, h, Over).(row := Released(s.row, h)) else s
    case Crash(h) => Move(s, h, Dead(GrantOf(s, h)))
  }

  function Run(s: State, actions: seq<Action>): State
    decreases |actions|
  {
    if actions == [] then s else Run(Step(s, actions[0]), actions[1..])
  }

  /** A grant is live until it is released or its recorded expiry is reached. */
  predicate Live(s: State, holder: string) {
    GrantOf(s, holder).Some? && GrantOf(s, holder).value > s.clock
  }

  /** No keeper has started; a row may be left over from an earlier run. */
  predicate Initial(s: State) {
    s.keepers == map[] && (s.row.Some? ==> s.row.value.exp <= s.clock + TTL)
  }

  ghost predicate Invariant(s: State) {
    && (forall h :: Live(s, h) ==> s.row == Some(Lock(h, GrantOf(s, h).value)))
    && (forall h :: PhaseOf(s, h).ClockRead? ==> PhaseOf(s, h).now <= s.clock)
    && (s.row.Some? ==> s.row.value.exp <= s.clock + TTL)
  }

  lemma StepKeepsInvariant(s: State, a: Action)
    requires Invariant(s)
    ensures Invariant(Step(s, a))
  {
    var t := Step(s, a);
    forall h | Live(t, h) ensures t.row == Some(Lock(h, GrantOf(t, h).value)) {
      if GrantOf(t, h) == GrantOf(s, h) {
        assert Live(s, h);
      }
    }
    forall h | PhaseOf(t, h).ClockRead? ensures PhaseOf(t, h).now <= t.clock {
      assert PhaseOf(s, h) == PhaseOf(t, h) || PhaseOf(t, h).now == s.clock;
    }
  }

  lemma {:induction false} RunKeepsInvariant(s: State, actions: seq<Action>)
    requires Invariant(s)
    ensures Invariant(Run(s, actions))
    decreases |actions|
  {
    if actions == [] {
    } else {
      StepKeepsInvariant(s, actions[0]);
      RunKeepsInvariant(Step(s, actions[0]), actions[1..]);
    }
  }

  /** Exclusion: over every interleaving, two grants are never live at the same time. */
  lemma GrantsExclude(s: State, actions: seq<Action>, g: string, h: string)
    requires Initial(s)
    ensures Live(Run(s, actions), g) && Live(Run(s, actions), h) ==> g == h
  {
    RunKeepsInvariant(s, actions);
  }

  /** While a grant is live the row names it, so a late release by anyone else leaves it in place. */
  lemma LateReleaseIsHarmless(s: State, actions: seq<Action>, late: string, successor: string)
    requires Initial(s) && late != successor && Live(Run(s, actions), successor)
    ensures var before, after := Run(s, actions), Step(Run(s, actions), Release(late));
            && after.row == before.row == Some(Lock(successor, GrantOf(before, successor).value))
            && Live(after, successor)
  {
    RunKeepsInvariant(s, actions);
    assert GrantOf(Step(Run(s, actions), Release(late)), successor) == GrantOf(Run(s, actions), successor);
  }

  /** Releasing a live grant frees the row for the next keeper, whatever clock it read. */
  lemma ReleaseHandsOver(s: State, actions: seq<Action>, h: string, next: string)
    requires Initial(s) && Live(Run(s, actions), h) && PhaseOf(Run(s, actions), h).Holding? && next != h
    requires PhaseOf(Run(s, actions), next).ClockRead?
    ensures var after := Step(Run(s, actions), Release(h));
            after.row.None? && PhaseOf(Step(after, Acquire(next)), next).Holding?
  {
    RunKeepsInvariant(s, actions);
  }

  /**
   * From every reachable state, a keeper whose clock reading may be arbitrarily old is granted the
   * lock exactly when the row is free, its own, or expired at that reading. Its grant is live if the
   * reading is less than a TTL old, and no other grant is live beside it.
   */
  lemma AcquireGrantedIff(s: State, actions: seq<Action>, h: string)
    requires Initial(s) && PhaseOf(Run(s, actions), h).ClockRead?
    ensures var t := Run(s, actions);
            var now, u := PhaseOf(t, h).now, Step(t, Acquire(h));
            && (PhaseOf(u, h).Holding? <==> t.row.None? || t.row.value.holder == h || t.row.value.exp <= now)
            && (PhaseOf(u, h).Holding? ==>
                  && (Live(u, h) <==> t.clock < now + TTL)
                  && forall g :: Live(u, g) ==> g == h)
  {
    RunKeepsInvariant(s, actions);
    var t := Run(s, actions);
    var u := Step(t, Acquire(h));
    if PhaseOf(u, h).Holding? {
      forall g | Live(u, g) ensures g == h {
        assert g != h ==> GrantOf(t, g) == GrantOf(u, g);
      }
    }
  }

  lemma {:induction false} RunAppend(s: State, first: seq<Action>, later: seq<Action>)
    ensures Run(s, first + later) == Run(Run(s, first), later)
    decreases |first|
  {
    if first == [] {
      assert first + later == later;
    } else {
      assert (first + later)[1..] == first[1..] + later;
      RunAppend(Step(s, first[0]), first[1..], later);
    }
  }

  /**
   * A crash or an aborted tick wedges the fleet for at most one TTL: from every reachable state,
   * once TTL milliseconds pass the next keeper to read the clock is granted the lock.
   */
  lemma NeverWedged(s: State, actions: seq<Action>, h: string)
    requires Initial(s) && PhaseOf(Run(s, actions), h).Ready?
    ensures var t := Run(s, actions);
            PhaseOf(Run(t, [Advance(TTL), ReadClock(h), Acquire(h)]), h).Holding?
  {
    var t := Run(s, actions);
    var toRead := [Advance(TTL), ReadClock(h)];
    RunKeepsInvariant(s, actions);
    RunAppend(s, actions, toRead);
    RunAppend(t, toRead, [Acquire(h)]);
    RunOfTwo(t, Advance(TTL), ReadClock(h));
    AcquireGrantedIff(s, actions + toRead, h);
    var r := Run(t, toRead);
    assert Run(r, [Acquire(h)]) == Run(Step(r, Acquire(h)), []);
    assert toRead + [Acquire(h)] == [Advance(TTL), ReadClock(h), Acquire(h)];
  }

  lemma RunOfTwo(s: State, a: Action, b: Action)
    ensures Run(s, [a, b]) == Step(Step(s, a), b)
  {
    assert [a, b][1..] == [b] && [b][1..] == [];
    assert Run(Step(s, a), [b]) == Run(Step(Step(s, a), b), []);
  }

  // ---- trading sessions ----

  /** Sessions overlap only behind an expired grant: of two keepers that trade at once, at most one grant is live. */
  lemma OverlapMeansExpired(s: State, actions: seq<Action>, g: string, h: string)
    requires Initial(s) && g != h
    requires PhaseOf(Run(s, actions), g).Holding? && PhaseOf(Run(s, actions), h).Holding?
    ensures var t := Run(s, actions);
            PhaseOf(t, g).exp <= t.clock || PhaseOf(t, h).exp <= t.clock
  {
    GrantsExclude(s, actions, g, h);
  }

  /**
   * The lock bounds grants, not sessions: from every reachable state in which a keeper is trading,
   * another one starts trading beside it exactly when the row is free, already names the newcomer, or
   * has expired at the clock reading the newcomer took. It never does while the first grant is live.
   */
  lemma SessionsOverlapIff(s: State, actions: seq<Action>, first: string, second: string)
    requires Initial(s) && first != second
    requires PhaseOf(Run(s, actions), first).Holding? && PhaseOf(Run(s, actions), second).ClockRead?
    ensures var t := Run(s, actions);
            var now, u := PhaseOf(t, second).now, Step(t, Acquire(second));
            && PhaseOf(u, first).Holding?
            && (PhaseOf(u, second).Holding? <==>
                  t.row.None? || t.row.value.holder == second || t.row.value.exp <= now)
            && (Live(t, first) ==> !PhaseOf(u, second).Holding?)
  {
    RunKeepsInvariant(s, actions);
  }

  /** At most one keeper is trading. */
  ghost predicate Apart(s: State) {
    forall g, h :: PhaseOf(s, g).Holding? && PhaseOf(s, h).Holding? ==> g == h
  }

  /** A transaction that finds no unexpired row of another holder, while another holder is trading. */
  ghost predicate Overtakes(s: State, a: Action) {
    && a.Acquire? && PhaseOf(s, a.holder).ClockRead?
    && (s.row.None? || s.row.value.holder == a.holder || s.row.value.exp <= PhaseOf(s, a.holder).now)
    && exists g :: g != a.holder && PhaseOf(s, g).Holding?
  }

  lemma StepStaysApartIff(s: State, a: Action)
    requires Apart(s)
    ensures Apart(Step(s, a)) <==> !Overtakes(s, a)
  {
    var t := Step(s, a);
    if Overtakes(s, a) {
      var g :| g != a.holder && PhaseOf(s, g).Holding?;
      assert PhaseOf(t, g).Holding? && PhaseOf(t, a.holder).Holding?;
    } else {
      forall g, h | PhaseOf(t, g).Holding? && PhaseOf(t, h).Holding? ensures g == h {
        assert PhaseOf(s, g).Holding? || (a.Acquire? && a.holder == g);
        assert PhaseOf(s, h).Holding? || (a.Acquire? && a.holder == h);
      }
    }
  }

  /**
   * "Two keepers never trade at once" holds all along a run exactly when none of its transactions
   * overtakes: each one that does not find a live foreign row finds nobody trading.
   */
  lemma {:induction false} RunStaysApartIff(s: State, actions: seq<Action>)
    requires Apart(s)
    ensures (forall k :: 0 <= k <= |actions| ==> Apart(Run(s, actions[..k])))
            <==> (forall k :: 0 <= k < |actions| ==> !Overtakes(Run(s, actions[..k]), actions[k]))
    decreases |actions|
  {
    if actions == [] {
      assert Run(s, actions[..0]) == s;
    } else {
      var t, rest := Step(s, actions[0]), actions[1..];
      StepStaysApartIff(s, actions[0]);
      assert Run(s, actions[..0]) == s;
      PrefixesShift(s, actions);
      if Apart(t) {
        RunStaysApartIff(t, rest);
      } else {
        assert Run(s, actions[..1]) == Run(t, rest[..0]) == t;
      }
    }
  }

  /** The states a run passes through after its first step are those of the rest of it. */
  lemma PrefixesShift(s: State, actions: seq<Action>)
    requires actions != []
    ensures var t, rest := Step(s, actions[0]), actions[1..];
            && (forall k :: 0 <= k <= |rest| ==> Run(s, actions[..k + 1]) == Run(t, rest[..k]))
            && (forall k :: 1 <= k <= |actions| ==> Run(s, actions[..k]) == Run(t, rest[..k - 1]))
  {
    forall k | 0 <= k < |actions|
      ensures Run(s, actions[..k + 1]) == Run(Step(s, actions[0]), actions[1..][..k])
    {
      assert actions[..k + 1][1..] == actions[1..][..k];
    }
  }

  /**
   * What keepers can do for it: as long as each of them ends its tick, by release or crash, before its
   * recorded expiry, no two trade at once anywhere in the run.
   */
  lemma TimelySessionsStayApart(s: State, actions: seq<Action>)
    requires Initial(s)
    requires forall k, h :: 0 <= k <= |actions| && PhaseOf(Run(s, actions[..k]), h).Holding? ==>
                              Live(Run(s, actions[..k]), h)
    ensures forall k :: 0 <= k <= |actions| ==> Apart(Run(s, actions[..k]))
  {
    forall k | 0 <= k <= |actions| ensures Apart(Run(s, actions[..k])) {
      RunKeepsInvariant(s, actions[..k]);
    }
  }

  /** A run that reaches two open sessions: the first tick outlives its two minutes. */
  lemma LongTickOverlaps()
    ensures var t := Run(State(0, None, map[]),
                         [ReadClock("a"), Acquire("a"), Advance(TTL), ReadClock("b"), Acquire("b")]);
            PhaseOf(t, "a").Holding? && PhaseOf(t, "b").Holding?
  {
    var s0 := State(0, None, map[]);
    var as0 := [ReadClock("a"), Acquire("a"), Advance(TTL), ReadClock("b"), Acquire("b")];
    var s1 := Step(s0, ReadClock("a"));
    var s2 := Step(s1, Acquire("a"));
    var s3 := Step(s2, Advance(TTL));
    var s4 := Step(s3, ReadClock("b"));
    assert as0[1..][1..] == as0[2..] && as0[2..][1..] == as0[3..] && as0[3..][1..] == as0[4..] && as0[4..][1..] == [];
    assert Run(s0, as0) == Run(s1, as0[1..]) == Run(s2, as0[2..]) == Run(s3, as0[3..]) == Run(s4, as0[4..]);
    assert Run(s4, as0[4..]) == Run(Step(s4, Acquire("b")), []);
    assert "a"[0] != "b"[0];
  }
}
