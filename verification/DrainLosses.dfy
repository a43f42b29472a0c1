/** How much one run of the drain loop loses: at most one entry under ordinary exceptions
    and a prompt clock, and exactly when so in general. */
module DrainLosses {
  import opened Breaker
  import opened Bridge
  import opened Wrappers

  /** The call of this turn, begun with the circuit closed and `f` failures counted, does
      not return. Like all that follows it is read off the outcomes and the clock. */
  predicate Loses(f: nat, turn: Turn)
    requires turn.script.Possible() && f < CB_FAILURE_THRESHOLD
  {
    EndOf(f, turn.script, 0).result != Returned
  }

  /** The failures counted when the next loop check finds the circuit closed. */
  function Left(f: nat, turn: Turn): (r: nat)
    requires turn.script.Possible() && f < CB_FAILURE_THRESHOLD
    ensures r < CB_FAILURE_THRESHOLD
  {
    if Opens(f, turn.script, 0) then 0 else EndOf(f, turn.script, 0).breaker.failures
  }

  /** The circuit has not opened, or the next loop check comes 30 seconds past the stamp
      of the third failure in a row. */
  predicate GoesOn(f: nat, turn: Turn, next: real)
    requires turn.script.Possible() && f < CB_FAILURE_THRESHOLD
  {
    !Opens(f, turn.script, 0) || next - turn.script.attempts[Decisive(f, 0)].stamp >= CB_RESET_SECONDS
  }

  lemma TurnEnds(closed: Breaker, rest: seq<Entry>, entry: Entry, turn: Turn, next: real)
    requires turn.script.Possible() && closed.openAt.None? && closed.Armed()
    ensures var r, f := ReplayEntry(closed, rest, entry, turn), closed.failures;
            && (r.result == if Loses(f, turn) then Lost else Applied) && r.queue == rest
            && r.breaker.Armed()
            && (r.breaker.Blocks(next) <==> !GoesOn(f, turn, next))
            && (GoesOn(f, turn, next) ==> r.breaker.Read(next) == Breaker(Left(f, turn), None))
  {
    ReplayNeverRequeues(closed, rest, entry, turn);
    AttemptsEnd(closed, 0, turn.script);
    hide RunAttempts;
  }

  lemma DrainTakesIff(b: Breaker, queue: seq<Entry>, turns: nat -> Turn, k: nat)
    requires AllPossible(turns) && queue != []
    ensures DrainQueue(b, queue, turns, k).queue != queue <==> !b.Blocks(turns(k).loop)
  {
    hide RunCall, ReplayEntry;
    if !b.Blocks(turns(k).loop) {
      var next, r := DrainStep(b, queue, turns, k);
      DrainConserves(next.0, queue[1..], turns, k + 1);
      assert |r.queue| < |queue|;
    }
  }

  /** After a loss the drain takes the next entry if and only if the call did not come to
      its third failure in a row with a prompt recheck, or the next loop check reads 30
      seconds or more past the stamp of that failure. */
  lemma GoesOnAfterLossIff(closed: Breaker, rest: seq<Entry>, entry: Entry, turns: nat -> Turn, k: nat)
    requires AllPossible(turns) && closed.openAt.None? && closed.Armed() && rest != []
    requires Loses(closed.failures, turns(k))
    ensures ReplayEntry(closed, rest, entry, turns(k)).result == Lost
    ensures var after, script := ReplayEntry(closed, rest, entry, turns(k)).breaker, turns(k).script;
            DrainQueue(after, rest, turns, k + 1).queue != rest <==>
              || !Opens(closed.failures, script, 0)
              || turns(k + 1).loop - script.attempts[Decisive(closed.failures, 0)].stamp >= CB_RESET_SECONDS
  {
    TurnEnds(closed, rest, entry, turns(k), turns(k + 1).loop);
    hide RunCall, ReplayEntry, DrainQueue;
    DrainTakesIff(ReplayEntry(closed, rest, entry, turns(k)).breaker, rest, turns, k + 1);
  }

  /** The failures counted at turn `m` of a drain that began at turn `k` with `f`, all the
      turns between having returned. */
  function CountedAt(f: nat, k: nat, m: nat): (r: nat) {
    if m == k then f else 0
  }

  /** Turn `i` is the first one from `k` on to lose its entry. */
  ghost predicate FirstLoss(f: nat, turns: nat -> Turn, k: nat, i: nat)
    requires AllPossible(turns) && f < CB_FAILURE_THRESHOLD
  {
    && k <= i && Loses(CountedAt(f, k, i), turns(i))
    && forall m: nat | k <= m < i :: !Loses(CountedAt(f, k, m), turns(m))
  }

  ghost predicate LosesSome(f: nat, turns: nat -> Turn, k: nat, n: nat)
    requires AllPossible(turns) && f < CB_FAILURE_THRESHOLD
  {
    exists i: nat :: i < k + n && FirstLoss(f, turns, k, i)
  }

  /** After the first loss, at turn `i`, the drain goes on, and next loses at turn `j`. */
  ghost predicate NextLoss(f: nat, turns: nat -> Turn, k: nat, i: nat, j: nat)
    requires AllPossible(turns) && f < CB_FAILURE_THRESHOLD
  {
    && GoesOn(CountedAt(f, k, i), turns(i), turns(i + 1).loop)
    && FirstLoss(Left(CountedAt(f, k, i), turns(i)), turns, i + 1, j)
  }

  /** Among `n` turns from `k` on there is a first loss and a next one. */
  ghost predicate LosesTwice(f: nat, turns: nat -> Turn, k: nat, n: nat)
    requires AllPossible(turns) && f < CB_FAILURE_THRESHOLD
  {
    exists i: nat, j: nat :: FirstLoss(f, turns, k, i) && j < k + n && NextLoss(f, turns, k, i, j)
  }

  lemma FirstLossStep(f: nat, turns: nat -> Turn, k: nat, i: nat)
    requires AllPossible(turns) && f < CB_FAILURE_THRESHOLD
    ensures FirstLoss(f, turns, k, i) <==>
              if i == k then Loses(f, turns(k)) else i > k && !Loses(f, turns(k)) && FirstLoss(0, turns, k + 1, i)
  {
    hide Loses;
    if i > k && FirstLoss(f, turns, k, i) {
      assert !Loses(CountedAt(f, k, k), turns(k));
      forall m: nat | k + 1 <= m < i ensures !Loses(CountedAt(0, k + 1, m), turns(m)) {
        assert !Loses(CountedAt(f, k, m), turns(m));
      }
    }
    if i > k && !Loses(f, turns(k)) && FirstLoss(0, turns, k + 1, i) {
      forall m: nat | k <= m < i ensures !Loses(CountedAt(f, k, m), turns(m)) {
        assert m > k ==> !Loses(CountedAt(0, k + 1, m), turns(m));
      }
    }
  }

  lemma SomeStep(f: nat, turns: nat -> Turn, k: nat, n: nat)
    requires AllPossible(turns) && f < CB_FAILURE_THRESHOLD
    ensures !LosesSome(f, turns, k, 0)
    ensures n > 0 ==>
              (LosesSome(f, turns, k, n) <==> Loses(f, turns(k)) || LosesSome(0, turns, k + 1, n - 1))
  {
    FirstLossStep(f, turns, k, k);
    hide Loses;
    if n > 0 && LosesSome(f, turns, k, n) {
      var i: nat :| i < k + n && FirstLoss(f, turns, k, i);
      FirstLossStep(f, turns, k, i);
    }
    if n > 0 && !Loses(f, turns(k)) && LosesSome(0, turns, k + 1, n - 1) {
      var i: nat :| i < k + n && FirstLoss(0, turns, k + 1, i);
      FirstLossStep(f, turns, k, i);
    }
  }

  lemma {:induction false} LosesIff(b: Breaker, queue: seq<Entry>, turns: nat -> Turn, k: nat)
    requires AllPossible(turns) && b.Armed() && !b.Blocks(turns(k).loop)
    ensures DrainQueue(b, queue, turns, k).lost != [] <==>
              LosesSome(b.Read(turns(k).loop).failures, turns, k, |queue|)
    decreases |queue|
  {
    hide RunCall, ReplayEntry, Loses, GoesOn, Left, LosesSome;
    var closed := b.Read(turns(k).loop);
    SomeStep(closed.failures, turns, k, |queue|);
    if queue != [] {
      var next, r := DrainStep(b, queue, turns, k);
      TurnEnds(closed, queue[1..], queue[0], turns(k), turns(k + 1).loop);
      if !Loses(closed.failures, turns(k)) {
        ReturnLeavesNone(closed.failures, turns(k), turns(k + 1).loop);
        LosesIff(next.0, queue[1..], turns, k + 1);
      }
    }
  }

  lemma ReturnLeavesNone(f: nat, turn: Turn, next: real)
    requires turn.script.Possible() && f < CB_FAILURE_THRESHOLD && !Loses(f, turn)
    ensures GoesOn(f, turn, next) && Left(f, turn) == 0
  {
  }

  /** One drain loses at most one entry if and only if it does not begin with the circuit
      closed, lose one, go on and come to lose another: all of it to be seen from the
      outcomes of the attempts and the readings of the clock. */
  lemma {:induction false} DrainLosesAtMostOneIff(b: Breaker, queue: seq<Entry>, turns: nat -> Turn, k: nat)
    requires AllPossible(turns) && b.Armed()
    ensures |DrainQueue(b, queue, turns, k).lost| <= 1 <==>
              b.Blocks(turns(k).loop) || !LosesTwice(b.Read(turns(k).loop).failures, turns, k, |queue|)
    decreases |queue|
  {
    hide RunCall, ReplayEntry, Loses, GoesOn, Left, FirstLoss, LosesTwice;
    if queue == [] {
      if !b.Blocks(turns(k).loop) {
        NoneTwice(b.Read(turns(k).loop).failures, turns, k);
      }
    } else if !b.Blocks(turns(k).loop) {
      var closed, rest := b.Read(turns(k).loop), queue[1..];
      var f := closed.failures;
      var next, r := DrainStep(b, queue, turns, k);
      TurnEnds(closed, rest, queue[0], turns(k), turns(k + 1).loop);
      TwiceStep(f, turns, k, |queue|);
      if !Loses(f, turns(k)) {
        ReturnLeavesNone(f, turns(k), turns(k + 1).loop);
        DrainLosesAtMostOneIff(next.0, rest, turns, k + 1);
      } else if GoesOn(f, turns(k), turns(k + 1).loop) {
        LosesIff(next.0, rest, turns, k + 1);
      } else {
        assert next.1.lost == [];
      }
    }
  }

  lemma NoneTwice(f: nat, turns: nat -> Turn, k: nat)
    requires AllPossible(turns) && f < CB_FAILURE_THRESHOLD
    ensures !LosesTwice(f, turns, k, 0)
  {
    hide Loses, GoesOn, Left;
  }

  lemma TwiceStep(f: nat, turns: nat -> Turn, k: nat, n: nat)
    requires AllPossible(turns) && f < CB_FAILURE_THRESHOLD && n > 0
    ensures LosesTwice(f, turns, k, n) <==>
              if Loses(f, turns(k))
              then GoesOn(f, turns(k), turns(k + 1).loop) && LosesSome(Left(f, turns(k)), turns, k + 1, n - 1)
              else LosesTwice(0, turns, k + 1, n - 1)
  {
    FirstLossStep(f, turns, k, k);
    hide Loses, GoesOn, Left;
    if LosesTwice(f, turns, k, n) {
      var i: nat, j: nat :| FirstLoss(f, turns, k, i) && j < k + n && NextLoss(f, turns, k, i, j);
      FirstLossStep(f, turns, k, i);
      if i == k {
        assert FirstLoss(Left(f, turns(k)), turns, k + 1, j);
      } else {
        assert NextLoss(0, turns, k + 1, i, j);
      }
    }
    if Loses(f, turns(k)) && GoesOn(f, turns(k), turns(k + 1).loop)
        && LosesSome(Left(f, turns(k)), turns, k + 1, n - 1) {
      var j: nat :| j < k + n && FirstLoss(Left(f, turns(k)), turns, k + 1, j);
      assert FirstLoss(f, turns, k, k) && NextLoss(f, turns, k, k, j);
    }
    if !Loses(f, turns(k)) && LosesTwice(0, turns, k + 1, n - 1) {
      var i: nat, j: nat :| FirstLoss(0, turns, k + 1, i) && j < k + n && NextLoss(0, turns, k + 1, i, j);
      FirstLossStep(f, turns, k, i);
      assert NextLoss(f, turns, k, i, j);
    }
  }

  /** The entries whose call has the outcome `o` at its first attempt. */
  ghost function Picked(queue: seq<Entry>, turns: nat -> Turn, k: nat, o: Outcome): (r: seq<Entry>)
    requires AllPossible(turns)
    decreases |queue|
  {
    if queue == [] then []
    else (if turns(k).script.attempts[0].outcome == o then [queue[0]] else []) + Picked(queue[1..], turns, k + 1, o)
  }

  /** What the code really does to events whose tool the profile hides: their first attempt
      raises at once, so one drain loses every one of them and stops for none. */
  lemma {:induction false} GatedAreAllLost(b: Breaker, queue: seq<Entry>, turns: nat -> Turn, k: nat)
    requires AllPossible(turns) && b.Armed() && !b.Blocks(turns(k).loop)
    requires forall m: nat | k <= m < k + |queue| :: turns(m).script.attempts[0].outcome != Fails
    ensures var r := DrainQueue(b, queue, turns, k);
            && r.queue == []
            && r.lost == Picked(queue, turns, k, RaisesAtOnce)
            && r.applied == Picked(queue, turns, k, Returns)
    decreases |queue|
  {
    if queue != [] {
      var next, r := DrainStep(b, queue, turns, k);
      TurnEnds(b.Read(turns(k).loop), queue[1..], queue[0], turns(k), turns(k + 1).loop);
      hide RunCall, ReplayEntry;
      GatedAreAllLost(next.0, queue[1..], turns, k + 1);
    }
  }

  // ----- Ordinary exceptions and a prompt clock --------------------------------------

  /** Every exception is an ordinary one, and less than 30 seconds pass
      between a failure's stamp and the next two readings of the clock. */
  ghost predicate Calm(turns: nat -> Turn) {
    && AllPossible(turns)
    && forall k: nat ::
         && turns(k).script.Ordinary() && turns(k).script.Prompt()
         && forall i | 0 <= i < RETRY_ATTEMPTS ::
             turns(k + 1).loop - turns(k).script.attempts[i].stamp < CB_RESET_SECONDS
  }

  /** One drain loses at most one entry: the call that loses it has opened the
      circuit, and the next loop check stops the drain. */
  lemma {:induction false} DrainLosesAtMostOne(b: Breaker, queue: seq<Entry>, turns: nat -> Turn, k: nat)
    requires Calm(turns) && b.Armed()
    ensures var r := DrainQueue(b, queue, turns, k);
            && |r.lost| <= 1
            && (r.lost != [] ==>
                  && r.breaker.openAt.Some?
                  && |r.applied| < |queue|
                  && r.applied + r.lost == queue[..|r.applied| + 1]
                  && r.queue == queue[|r.applied| + 1..])
            && (r.lost == [] ==> r.queue == [] || r.breaker.openAt.Some?)
    decreases |queue|
  {
    hide RunCall, ReplayEntry;
    if queue != [] && !b.Blocks(turns(k).loop) {
      var next, r := DrainStep(b, queue, turns, k);
      var closed := b.Read(turns(k).loop);
      TurnEnds(closed, queue[1..], queue[0], turns(k), turns(k + 1).loop);
      if !Loses(closed.failures, turns(k)) {
        DrainLosesAtMostOne(next.0, queue[1..], turns, k + 1);
        if r.lost != [] {
          var n := |next.1.applied| + 1;
          assert queue[..n + 1] == [queue[0]] + queue[1..][..n];
          assert r.applied + r.lost == [queue[0]] + (next.1.applied + next.1.lost);
        }
      } else {
        LossStops(closed.failures, turns, k);
        assert [queue[0]] == queue[..1];
      }
    }
  }

  lemma LossStops(f: nat, turns: nat -> Turn, k: nat)
    requires Calm(turns) && f < CB_FAILURE_THRESHOLD && Loses(f, turns(k))
    ensures !GoesOn(f, turns(k), turns(k + 1).loop)
  {
    var script, n := turns(k).script, Failing(turns(k).script, 0);
    assert script.Ordinary() && script.Prompt();
    if n == RETRY_ATTEMPTS {
      assert script.attempts[Decisive(f, 0)].Prompt();
      assert turns(k + 1).loop - script.attempts[Decisive(f, 0)].stamp < CB_RESET_SECONDS;
    } else {
      assert script.attempts[n].outcome != RaisesAtOnce;
    }
  }
}
