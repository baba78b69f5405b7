/**
 The Windows updater (cmd/mcp-bundle-updater/main_windows.go): two marker files, one
 transaction file and the service's configured binary, changed one at a time, with a failure
 or a crash possible at every step.
 */
module WindowsUpdater {
  import opened Text
  import opened Releases

  datatype Marker = Marker(release: Release, commit: string)

  datatype Pair = Pair(active: Marker, previous: Option<Marker>)

  datatype Phase = Prepared | MarkersWritten | ServiceStarted

  datatype Transaction = Transaction(phase: Phase, before: Pair, target: Pair)

  /** What survives a crash: the markers, the transaction file and the binary the service is configured with. */
  datatype Machine = Machine(pair: Pair, transaction: Option<Transaction>, configured: Release)

  // ------------------------------------------------------------- what is kept

  predicate ValidMarkers(p: Pair) {
    ValidRelease(p.active.release) && (p.previous.Some? ==> ValidRelease(p.previous.value.release))
  }

  /** The active and the previous release differ. */
  predicate Distinct(p: Pair) {
    p.previous.Some? ==> p.previous.value.release != p.active.release
  }

  /** `target` makes another release active and remembers the one it replaces. */
  predicate Replaces(target: Pair, before: Pair) {
    target.previous == Some(before.active) && target.active.release != before.active.release
  }

  /**
   A state that a transaction from `before` to `target` may pass through. Without a transaction
   file the markers are exactly one of the two pairs, never a mix, and the service is configured
   with the active release's binary.
   */
  predicate Within(m: Machine, before: Pair, target: Pair) {
    match m.transaction
    case None => (m.pair == before || m.pair == target) && m.configured == m.pair.active.release
    case Some(tx) =>
      && tx.before == before && tx.target == target
      && (m.pair.active == before.active || m.pair.active == target.active)
      && (m.pair.previous == before.previous || m.pair.previous == target.previous)
      && (m.configured == before.active.release || m.configured == target.active.release)
  }

  predicate Lawful(m: Machine) {
    match m.transaction
    case None => ValidMarkers(m.pair) && Distinct(m.pair) && m.configured == m.pair.active.release
    case Some(tx) =>
      && ValidMarkers(tx.before) && ValidMarkers(tx.target)
      && Distinct(tx.before) && Replaces(tx.target, tx.before)
      && Within(m, tx.before, tx.target)
  }

  /** The markers that stand until the pending transaction ends. */
  function Standing(m: Machine): Pair {
    if m.transaction.None? then m.pair else m.transaction.value.before
  }

  /** One step: the standing markers stay, or a pending transaction ends with its target. */
  predicate Moves(a: Machine, b: Machine) {
    && (a.transaction.Some? && b.transaction.Some? ==>
          && b.transaction.value.before == a.transaction.value.before
          && b.transaction.value.target == a.transaction.value.target)
    && (Standing(b) == Standing(a)
        || (a.transaction.Some? && b.transaction.None? && b.pair == a.transaction.value.target))
  }

  /** A history of lawful states, each one step after the one before. */
  ghost predicate Chain(j: seq<Machine>) {
    && j != []
    && (forall i | 0 <= i < |j| :: Lawful(j[i]))
    && (forall i | 0 < i < |j| :: Moves(j[i - 1], j[i]))
  }

  ghost predicate Traverses(j: seq<Machine>, from: nat, before: Pair, target: Pair) {
    forall i | from <= i < |j| :: Within(j[i], before, target)
  }

  lemma ChainGrows(j: seq<Machine>, m: Machine)
    requires Chain(j) && Lawful(m) && Moves(j[|j| - 1], m)
    ensures Chain(j + [m])
  {
  }

  /**
   Between two states without a transaction file, however much went wrong in between, the
   markers are unchanged or they were replaced as a pair.
   */
  lemma {:induction false} SettledPairs(j: seq<Machine>, i: nat, k: nat)
    requires Chain(j) && i <= k < |j| && j[i].transaction.None? && j[k].transaction.None?
    requires forall x | i < x < k :: j[x].transaction.Some?
    ensures j[k].pair == j[i].pair || Replaces(j[k].pair, j[i].pair)
  {
    if i < k {
      StandingKept(j, i, k - 1);
      assert Moves(j[k - 1], j[k]);
      assert Lawful(j[k - 1]);
    }
  }

  lemma {:induction false} StandingKept(j: seq<Machine>, i: nat, k: nat)
    requires Chain(j) && i <= k < |j| && j[i].transaction.None?
    requires forall x | i < x <= k :: j[x].transaction.Some?
    ensures Standing(j[k]) == j[i].pair
    decreases k
  {
    if i < k {
      StandingKept(j, i, k - 1);
      assert Moves(j[k - 1], j[k]);
    }
  }

  /**
   While a transaction is pending the two markers name one release exactly when they are half
   written: back to the old pair while the previous marker is the target's, or, if the target is
   the previous release, on to the target while the previous marker is still there.
   */
  lemma MarkersMeetIff(m: Machine)
    requires Lawful(m) && m.transaction.Some?
    ensures var before, target := m.transaction.value.before, m.transaction.value.target;
            !Distinct(m.pair) <==>
            || (m.pair.active.release == before.active.release && m.pair.previous == target.previous)
            || (m.pair.active.release == target.active.release && m.pair.previous.Some?
                && m.pair.previous == before.previous
                && m.pair.previous.value.release == target.active.release)
  {
  }

  // ------------------------------------------------------- the service manager

  /** How a change of the service's configuration ends. */
  datatype ConfigUpdate = Applied | Rejected | AppliedButFailed

  datatype SwapFaults = SwapFaults(ready: bool, stop: bool, update: ConfigUpdate, start: bool, revert: ConfigUpdate) {
    /** A swap leaves the binary it was asked for configured, whether it reports success or not. */
    predicate Moves() {
      ready && stop && (update.AppliedButFailed? || (update.Applied? && (start || revert.Rejected?)))
    }
  }

  /** The configured binary after `SwapAndStart`, and whether it reports success. */
  function AfterSwap(configured: Release, target: Release, f: SwapFaults): (r: (Release, bool))
    ensures r.1 ==> r.0 == target
    ensures r.0 == configured || r.0 == target
  {
    if !f.ready || !f.stop then (configured, false)
    else if !f.update.Applied? then (if f.update.Rejected? then configured else target, false)
    else if f.start then (target, true)
    else (if f.revert.Rejected? then target else configured, false)
  }

  // ----------------------------------------------------------------- recovery

  /** What a complete recovery does, for a service that answers `Verify` only while it is `running`. */
  function Settle(m: Machine, running: bool): Machine {
    if m.transaction.None? || !running then m
    else if m.configured == m.transaction.value.target.active.release
    then m.(pair := m.transaction.value.target, transaction := None)
    else if m.configured == m.transaction.value.before.active.release
    then m.(pair := m.transaction.value.before, transaction := None)
    else m
  }

  /** On lawful states recovery always ends the transaction once the service runs, and a settled state stays. */
  lemma SettleEnds(m: Machine, running: bool)
    requires Lawful(m)
    ensures Lawful(Settle(m, running)) && Moves(m, Settle(m, running))
    ensures running ==> Settle(m, running).transaction.None?
    ensures Settle(Settle(m, running), running) == Settle(m, running)
    ensures !running ==> Settle(m, running) == m
    ensures running && m.transaction.Some? ==>
              var tx := m.transaction.value;
              var pair := if m.configured == tx.target.active.release then tx.target else tx.before;
              Settle(m, running) == Machine(pair, None, m.configured)
  {
  }

  /** Recovery looks neither at the recorded phase nor at what the markers say. */
  lemma SettleIgnores(m: Machine, running: bool, phase: Phase, pair: Pair)
    requires m.transaction.Some?
    ensures var other := m.(transaction := Some(m.transaction.value.(phase := phase)));
            && Settle(other, running).pair == Settle(m, running).pair
            && (Settle(m, running).transaction.None? ==>
                  Settle(other, running) == Settle(m, running) == Settle(m.(pair := pair), running))
  {
  }

  // --------------------------------------------------------------- the updater

  datatype MarkerFaults = MarkerFaults(active: bool, previous: bool) {
    predicate None() { active && previous }
  }

  /** The markers after writing a pair over others. */
  function AfterMarkers(was: Pair, pair: Pair, f: MarkerFaults): Pair {
    if !f.active then was else Pair(pair.active, if f.previous then pair.previous else was.previous)
  }

  datatype RestoreFaults = RestoreFaults(
    verify: bool, swap: SwapFaults, verifyAgain: bool, markers: MarkerFaults, clear: bool)

  datatype CommitFaults = CommitFaults(
    prepared: bool, markers: MarkerFaults, marked: bool, swap: SwapFaults, verify: bool, started: bool, clear: bool,
    back: RestoreFaults)
  {
    /** Everything up to the removal of the transaction file goes well. */
    predicate Good() {
      && prepared && markers.None() && marked && swap.ready && swap.stop && swap.update.Applied? && swap.start
      && verify && started && clear
    }
  }

  datatype RecoverFaults = RecoverFaults(
    read: bool, verifyNew: bool, verifyOld: bool, markers: MarkerFaults, clear: bool)

  /** The pair a recovery decides for, if the service runs one of the two binaries. */
  function Decided(m: Machine, f: RecoverFaults): Option<Pair>
    requires m.transaction.Some?
  {
    var tx := m.transaction.value;
    if f.verifyNew && m.configured == tx.target.active.release then Some(tx.target)
    else if f.verifyOld && m.configured == tx.before.active.release then Some(tx.before)
    else None
  }

  /** What one recovery leaves, complete or not. */
  function AfterRecovery(m: Machine, f: RecoverFaults): Machine {
    if m.transaction.None? || !f.read || Decided(m, f).None? then m
    else if f.markers.None() && f.clear then m.(pair := Decided(m, f).value, transaction := None)
    else m.(pair := AfterMarkers(m.pair, Decided(m, f).value, f.markers))
  }

  /** A recovery leaves no transaction. */
  predicate Recovers(m: Machine, f: RecoverFaults) {
    AfterRecovery(m, f).transaction.None?
  }

  datatype Result = Committed | Restored | Unstarted | Pending

  datatype Recovery = Clean | Unfinished

  /** The configured binary once the restoration has tried to swap back. */
  function SwappedBack(configured: Release, before: Release, f: RestoreFaults): Release {
    if f.verify && configured == before then configured else AfterSwap(configured, before, f.swap).0
  }

  datatype UpdateFaults = UpdateFaults(
    recover: RecoverFaults, markers: bool, fetched: bool, installed: bool, commit: CommitFaults)
  {
    /** Reading the markers, fetching the channel and installing the release succeed. */
    predicate Works() { markers && fetched && installed }
  }

  datatype Operation =
    | Update(channel: Marker, faults: UpdateFaults)
    | Back(faults: UpdateFaults)
    | Resume(recovery: RecoverFaults)

  /** One run of the updater, cut off in the given state of the journal if it comes to pass through it. */
  datatype Command = Command(operation: Operation, crash: Option<nat>)

  datatype Answer = Declined | Unchanged | Done(result: Result)

  predicate SameNumbers(a: Release, b: Release)
    requires ValidRelease(a) && ValidRelease(b)
  {
    a.Legacy? && b.Legacy? && Value(a.minor) == Value(b.minor) && Value(a.patch) == Value(b.patch)
  }

  class Updater {
    var active: Marker
    var previous: Option<Marker>
    var transaction: Option<Transaction>
    var configured: Release
    /** Every state the machine has been in; a crash may leave it in any of them. */
    var journal: seq<Machine>

    constructor (active: Marker, previous: Option<Marker>)
      requires ValidMarkers(Pair(active, previous)) && Distinct(Pair(active, previous))
      ensures Valid() && Now() == Machine(Pair(active, previous), None, active.release) && journal == [Now()]
    {
      this.active, this.previous, transaction, configured := active, previous, None, active.release;
      journal := [Machine(Pair(active, previous), None, active.release)];
    }

    function Now(): Machine
      reads this
    {
      Machine(Pair(active, previous), transaction, configured)
    }

    ghost predicate Valid()
      reads this
    {
      Chain(journal) && journal[|journal| - 1] == Now()
    }

    // Each of the following changes one thing, or fails and changes nothing.

    method WriteTransaction(tx: Transaction, ok: bool) returns (done: bool)
      requires Valid() && Lawful(Now().(transaction := Some(tx))) && Moves(Now(), Now().(transaction := Some(tx)))
      modifies this
      ensures Valid() && done == ok
      ensures Now() == if done then old(Now()).(transaction := Some(tx)) else old(Now())
      ensures journal == if done then old(journal) + [Now()] else old(journal)
    {
      if !ok {
        return false;
      }
      transaction := Some(tx);
      ChainGrows(journal, Now());
      journal := journal + [Now()];
      return true;
    }

    method ClearTransaction(ok: bool) returns (done: bool)
      requires Valid() && Lawful(Now().(transaction := None)) && Moves(Now(), Now().(transaction := None))
      modifies this
      ensures Valid() && done == ok
      ensures Now() == if done then old(Now()).(transaction := None) else old(Now())
      ensures journal == if done then old(journal) + [Now()] else old(journal)
    {
      if !ok {
        return false;
      }
      transaction := None;
      ChainGrows(journal, Now());
      journal := journal + [Now()];
      return true;
    }

    /** `writeTransactionMarkers`: the active marker first, then the previous one. */
    method WriteMarkers(pair: Pair, f: MarkerFaults) returns (done: bool)
      requires Valid() && transaction.Some? && (pair == transaction.value.before || pair == transaction.value.target)
      modifies this
      ensures Valid() && done == f.None()
      ensures Now() == old(Now()).(pair := AfterMarkers(old(Now()).pair, pair, f))
      ensures active == if f.active then pair.active else old(active)
      ensures previous == if f.active && f.previous then pair.previous else old(previous)
      ensures old(journal) <= journal
      ensures Traverses(journal, |old(journal)|, transaction.value.before, transaction.value.target)
    {
      if !f.active {
        return false;
      }
      active := pair.active;
      ChainGrows(journal, Now());
      journal := journal + [Now()];
      if !f.previous {
        return false;
      }
      previous := pair.previous;
      ChainGrows(journal, Now());
      journal := journal + [Now()];
      return true;
    }

    /** `UpdateConfig` of the service manager, which may report a failure after it took effect. */
    method UpdateConfig(release: Release, update: ConfigUpdate) returns (done: bool)
      requires Valid() && transaction.Some?
      requires release == transaction.value.before.active.release || release == transaction.value.target.active.release
      modifies this
      ensures Valid() && done == update.Applied?
      ensures Now() == old(Now()).(configured := if update.Rejected? then old(configured) else release)
      ensures old(journal) <= journal
      ensures Traverses(journal, |old(journal)|, transaction.value.before, transaction.value.target)
    {
      if !update.Rejected? {
        configured := release;
        ChainGrows(journal, Now());
        journal := journal + [Now()];
      }
      return update.Applied?;
    }

    method SwapAndStart(release: Release, f: SwapFaults) returns (ok: bool)
      requires Valid() && transaction.Some?
      requires release == transaction.value.before.active.release || release == transaction.value.target.active.release
      modifies this
      ensures Valid()
      ensures Now() == old(Now()).(configured := configured)
      ensures (configured, ok) == AfterSwap(old(configured), release, f)
      ensures ok <==> f.ready && f.stop && f.update.Applied? && f.start
      ensures !f.ready || !f.stop || f.update.Rejected? ==> configured == old(configured)
      ensures f.ready && f.stop && f.update.AppliedButFailed? ==> configured == release
      ensures f.ready && f.stop && f.update.Applied? && f.start ==> configured == release
      ensures f.ready && f.stop && f.update.Applied? && !f.start ==>
                configured == if f.revert.Rejected? then release else old(configured)
      ensures old(journal) <= journal
      ensures Traverses(journal, |old(journal)|, transaction.value.before, transaction.value.target)
    {
      if !f.ready || !f.stop {
        return false;
      }
      var was := configured;
      assert Lawful(journal[|journal| - 1]);
      var updated := UpdateConfig(release, f.update);
      if !updated {
        return false;
      }
      if !f.start {
        var reverted := UpdateConfig(was, f.revert);
        return false;
      }
      return true;
    }

    /** `Verify`: succeeds only for the configured binary, and only if the service manager `answers`. */
    method Verify(release: Release, answers: bool) returns (ok: bool)
      ensures ok == (answers && configured == release)
    {
      return answers && configured == release;
    }

    /**
     `restoreWindowsTransaction`: ends the transaction with the old markers exactly when the service
     is back on the old binary.
     */
    method Restore(f: RestoreFaults) returns (r: Result)
      requires Valid() && transaction.Some?
      modifies this
      ensures Valid() && old(journal) <= journal
      ensures Traverses(journal, |old(journal)|, old(transaction).value.before, old(transaction).value.target)
      ensures var before := old(transaction).value.before;
              var home := old(configured) == before.active.release || f.swap.Moves();
              && (r.Restored? <==> home && f.verifyAgain && f.markers.active && f.markers.previous && f.clear)
              && (r.Restored? || r.Pending?)
              && configured == (if home then before.active.release else old(configured))
              && (r.Restored? ==> Now() == Machine(before, None, before.active.release))
              && (r.Pending? ==>
                    && transaction == old(transaction)
                    && active == (if home && f.verifyAgain && f.markers.active then before.active else old(active))
                    && previous == (if home && f.verifyAgain && f.markers.active && f.markers.previous
                                    then before.previous else old(previous)))
    {
      var tx := transaction.value;
      assert Lawful(journal[|journal| - 1]);
      var home := Verify(tx.before.active.release, f.verify);
      if !home {
        var swapped := SwapAndStart(tx.before.active.release, f.swap);
      }
      home := Verify(tx.before.active.release, f.verifyAgain);
      if !home {
        return Pending;
      }
      var written := WriteMarkers(tx.before, f.markers);
      if !written {
        return Pending;
      }
      var cleared := ClearTransaction(f.clear);
      return if cleared then Restored else Pending;
    }

    /**
     `commitWindowsTransaction`. Whatever fails, and wherever it is interrupted, a state without a
     transaction file holds the old pair or the target pair with the matching binary.
     */
    method Commit(target: Pair, f: CommitFaults) returns (r: Result)
      requires Valid() && transaction.None? && ValidMarkers(target) && Replaces(target, Now().pair)
      modifies this
      ensures Valid() && old(journal) <= journal
      ensures Traverses(journal, |old(journal)|, old(Now()).pair, target)
      ensures r.Unstarted? <==> !f.prepared
      ensures r.Committed? <==>
              && f.prepared && f.markers.active && f.markers.previous && f.marked
              && f.swap.ready && f.swap.stop && f.swap.update.Applied? && f.swap.start && f.verify
              && f.started && f.clear
      ensures r.Restored? <==>
              && f.prepared && f.markers.active && f.markers.previous && f.marked
              && !(f.swap.ready && f.swap.stop && f.swap.update.Applied? && f.swap.start && f.verify)
              && (f.swap.Moves() ==> f.back.swap.Moves())
              && f.back.verifyAgain && f.back.markers.active && f.back.markers.previous && f.back.clear
      ensures r.Unstarted? || r.Restored? ==> Now() == old(Now())
      ensures r.Committed? ==> Now() == Machine(target, None, target.active.release)
      ensures r.Pending? ==>
                transaction.Some? && transaction.value.before == old(Now()).pair && transaction.value.target == target
      ensures f.prepared && !(f.markers.None() && f.marked) ==>
                && r.Pending? && configured == old(configured)
                && active == (if f.markers.active then target.active else old(active))
                && previous == (if f.markers.active && f.markers.previous then target.previous else old(previous))
    {
      assert Lawful(journal[|journal| - 1]);
      ghost var before := Now().pair;
      var tx := Transaction(Prepared, Pair(active, previous), target);
      var written := WriteTransaction(tx, f.prepared);
      if !written {
        return Unstarted;
      }
      written := WriteMarkers(target, f.markers);
      if !written {
        return Pending;
      }
      tx := tx.(phase := MarkersWritten);
      written := WriteTransaction(tx, f.marked);
      if !written {
        return Pending;
      }
      r := Activate(f);
    }

    /** `commitWindowsTransaction` once the markers are written. */
    method Activate(f: CommitFaults) returns (r: Result)
      requires Valid() && transaction.Some? && Now().pair == transaction.value.target
      requires configured == transaction.value.before.active.release
      modifies this
      ensures Valid() && old(journal) <= journal
      ensures Traverses(journal, |old(journal)|, old(transaction).value.before, old(transaction).value.target)
      ensures var before, target := old(transaction).value.before, old(transaction).value.target;
              var arrives := f.swap.ready && f.swap.stop && f.swap.update.Applied? && f.swap.start && f.verify;
              && (r.Committed? <==> arrives && f.started && f.clear)
              && (r.Restored? <==>
                  && !arrives && (f.swap.Moves() ==> f.back.swap.Moves())
                  && f.back.verifyAgain && f.back.markers.active && f.back.markers.previous && f.back.clear)
              && (r.Committed? ==> Now() == Machine(target, None, target.active.release))
              && (r.Restored? ==> Now() == Machine(before, None, before.active.release))
              && (r.Pending? ==>
                    transaction.Some? && transaction.value.before == before && transaction.value.target == target)
              && !r.Unstarted?
    {
      var tx := transaction.value;
      assert Lawful(journal[|journal| - 1]);
      var swapped := SwapAndStart(tx.target.active.release, f.swap);
      if !swapped {
        r := Restore(f.back);
        return;
      }
      var verified := Verify(tx.target.active.release, f.verify);
      if !verified {
        r := Restore(f.back);
        return;
      }
      tx := tx.(phase := ServiceStarted);
      var written := WriteTransaction(tx, f.started);
      if !written {
        return Pending;
      }
      var cleared := ClearTransaction(f.clear);
      return if cleared then Committed else Pending;
    }

    /**
     `recoverPendingTransaction`. For a service that answers the same way throughout, an
     interrupted recovery does not change what a complete one will do.
     */
    method Recover(f: RecoverFaults) returns (r: Recovery)
      requires Valid()
      modifies this
      ensures Valid() && old(journal) <= journal
      ensures old(transaction).None? ==> r.Clean? && Now() == old(Now()) && journal == old(journal)
      ensures old(transaction).Some? ==>
                Traverses(journal, |old(journal)|, old(transaction).value.before, old(transaction).value.target)
      ensures r.Clean? <==> transaction.None?
      ensures Now() == AfterRecovery(old(Now()), f)
      ensures configured == old(configured)
      ensures old(transaction).Some? ==>
                var tx := old(transaction).value;
                var onTarget := f.verifyNew && old(configured) == tx.target.active.release;
                var onOld := f.verifyOld && old(configured) == tx.before.active.release;
                && (r.Clean? <==>
                    f.read && (onTarget || onOld) && f.markers.active && f.markers.previous && f.clear)
                && (r.Clean? ==> Now().pair == if onTarget then tx.target else tx.before)
                && (r.Unfinished? ==> transaction == old(transaction))
                && (!f.read || !(onTarget || onOld) || !f.markers.active ==> Now().pair == old(Now()).pair)
      ensures f.verifyNew == f.verifyOld ==> Settle(Now(), f.verifyNew) == Settle(old(Now()), f.verifyNew)
      ensures f.verifyNew == f.verifyOld && f.read && f.markers.None() && f.clear ==>
                Now() == Settle(old(Now()), f.verifyNew)
    {
      if transaction.None? {
        return Clean;
      }
      if !f.read {
        return Unfinished;
      }
      var tx := transaction.value;
      assert Lawful(journal[|journal| - 1]);
      var verified := Verify(tx.target.active.release, f.verifyNew);
      if verified {
        r := Finish(tx.target, f);
        return;
      }
      verified := Verify(tx.before.active.release, f.verifyOld);
      if verified {
        r := Finish(tx.before, f);
        return;
      }
      return Unfinished;
    }

    /** Writes one of the two pairs and drops the transaction. */
    method Finish(pair: Pair, f: RecoverFaults) returns (r: Recovery)
      requires Valid() && transaction.Some? && (pair == transaction.value.before || pair == transaction.value.target)
      requires configured == pair.active.release
      modifies this
      ensures Valid() && old(journal) <= journal
      ensures Traverses(journal, |old(journal)|, old(transaction).value.before, old(transaction).value.target)
      ensures r == if f.markers.None() && f.clear then Clean else Unfinished
      ensures Now() == if r.Clean? then old(Now()).(pair := pair, transaction := None)
                       else old(Now()).(pair := AfterMarkers(old(Now()).pair, pair, f.markers))
    {
      assert Lawful(journal[|journal| - 1]);
      var written := WriteMarkers(pair, f.markers);
      if !written {
        return Unfinished;
      }
      assert Lawful(journal[|journal| - 1]);
      var cleared := ClearTransaction(f.clear);
      return if cleared then Clean else Unfinished;
    }

    /** Any number of interrupted recoveries and then a complete one do what one complete recovery does. */
    method RecoverRepeatedly(attempts: seq<RecoverFaults>, last: RecoverFaults) returns (r: Recovery)
      requires Valid()
      requires forall i | 0 <= i < |attempts| ::
                 attempts[i].verifyNew == attempts[i].verifyOld == last.verifyNew == last.verifyOld
      requires last.verifyNew == last.verifyOld && last.read && last.markers.None() && last.clear
      modifies this
      ensures Valid()
      ensures Now() == Settle(old(Now()), last.verifyNew)
      ensures r.Clean? <==> old(transaction).None? || last.verifyNew
    {
      for i := 0 to |attempts|
        invariant Valid() && Settle(Now(), last.verifyNew) == Settle(old(Now()), last.verifyNew)
      {
        r := Recover(attempts[i]);
      }
      r := Recover(last);
    }

    /**
     `updateStable`. A committed update never lowers the release; it raises it strictly unless
     both releases are legacy releases that write the same numbers.
     */
    method UpdateStable(channel: Marker, f: UpdateFaults) returns (r: Answer)
      requires Valid()
      modifies this
      ensures Valid() && old(journal) <= journal
      ensures !Recovers(old(Now()), f.recover) ==> r.Declined? && Now() == AfterRecovery(old(Now()), f.recover)
      ensures Recovers(old(Now()), f.recover) ==>
                var pair := AfterRecovery(old(Now()), f.recover).pair;
                var current, wanted := pair.active.release, channel.release;
                && ValidRelease(current)
                && (r.Declined? <==>
                    || !f.markers || !f.fetched || !f.installed || !ValidRelease(wanted)
                    || !Comparable(current) || !Comparable(wanted) || Less(Key(wanted), Key(current)))
                && (r.Unchanged? <==> !r.Declined? && current == wanted)
                && (r == Done(Committed) <==> !r.Declined? && !r.Unchanged? && f.commit.Good())
                && (r == Done(Committed) ==>
                      && Now() == Machine(Pair(channel, Some(pair.active)), None, channel.release)
                      && ValidRelease(wanted) && current != wanted && !Less(Key(wanted), Key(current))
                      && (Less(Key(current), Key(wanted)) <==> !SameNumbers(current, wanted)))
                && (r.Declined? || r.Unchanged? || r in {Done(Unstarted), Done(Restored)} ==>
                      Now() == Machine(pair, None, pair.active.release))
    {
      var recovered := Recover(f.recover);
      assert Lawful(journal[|journal| - 1]);
      if recovered.Unfinished? {
        return Declined;
      }
      hide Valid, Less, Key, Comparable, SameNumbers;
      r := UpdateSettled(channel, f);
    }

    /** What an update answers to the release of the channel. */
    ghost predicate Decides(current: Release, wanted: Release, f: UpdateFaults, r: Answer) {
      && (r.Declined? <==>
          || !f.markers || !f.fetched || !f.installed || !ValidRelease(current) || !ValidRelease(wanted)
          || !Comparable(current) || !Comparable(wanted) || Less(Key(wanted), Key(current)))
      && (r.Unchanged? <==> !r.Declined? && current == wanted)
      && (r == Done(Committed) <==> !r.Declined? && !r.Unchanged? && f.commit.Good())
    }

    /** The release is raised, or both are legacy releases that write the same numbers. */
    ghost predicate Raises(current: Release, wanted: Release) {
      && ValidRelease(current) && ValidRelease(wanted) && current != wanted
      && !Less(Key(wanted), Key(current)) && (Less(Key(current), Key(wanted)) <==> !SameNumbers(current, wanted))
    }

    /** `updateStable` once nothing is pending. */
    method UpdateSettled(channel: Marker, f: UpdateFaults) returns (r: Answer)
      requires Valid() && transaction.None?
      modifies this
      ensures Valid() && old(journal) <= journal
      ensures Decides(old(active).release, channel.release, f, r)
      ensures r == Done(Committed) ==>
                && Now() == Machine(Pair(channel, Some(old(active))), None, channel.release)
                && Raises(old(active).release, channel.release)
      ensures r.Declined? || r.Unchanged? || r in {Done(Unstarted), Done(Restored)} ==> Now() == old(Now())
    {
      if !f.markers || !f.fetched {
        return Declined;
      }
      assert Lawful(journal[|journal| - 1]);
      hide Less, Key;
      if !ValidRelease(channel.release) {
        return Declined;
      }
      var order := CompareRelease(channel.release, active.release);
      if order.None? || order.value < 0 || !f.installed {
        return Declined;
      }
      if active.release == channel.release {
        return Unchanged;
      }
      EqualKeys(active.release, channel.release);
      LessTotal(Key(active.release), Key(channel.release));
      hide ValidRelease, Comparable;
      var committed := Commit(Pair(channel, Some(active)), f.commit);
      return Done(committed);
    }

    /** `rollback` exchanges the two markers. */
    method Rollback(f: UpdateFaults) returns (r: Answer)
      requires Valid()
      modifies this
      ensures Valid() && old(journal) <= journal
      ensures !Recovers(old(Now()), f.recover) ==> r.Declined? && Now() == AfterRecovery(old(Now()), f.recover)
      ensures Recovers(old(Now()), f.recover) ==>
                var pair := AfterRecovery(old(Now()), f.recover).pair;
                && (r.Declined? <==> !f.markers || !f.installed || pair.previous.None?)
                && (r == Done(Committed) <==> !r.Declined? && f.commit.Good())
                && (r == Done(Committed) ==>
                      Now() == Machine(Pair(pair.previous.value, Some(pair.active)), None, pair.previous.value.release))
                && (r.Declined? || r in {Done(Unstarted), Done(Restored)} ==>
                      Now() == Machine(pair, None, pair.active.release))
                && !r.Unchanged?
    {
      var recovered := Recover(f.recover);
      assert Lawful(journal[|journal| - 1]);
      if recovered.Unfinished? || !f.markers || previous.None? || !f.installed {
        return Declined;
      }
      var committed := Commit(Pair(previous.value, Some(active)), f.commit);
      return Done(committed);
    }

    /** Two successful rollbacks restore the markers. */
    method RollbackTwice(f: UpdateFaults, g: UpdateFaults) returns (a: Answer, b: Answer)
      requires Valid() && transaction.None?
      modifies this
      ensures Valid()
      ensures a == Done(Committed) && b == Done(Committed) ==> Now() == old(Now())
    {
      assert Lawful(journal[|journal| - 1]);
      a := Rollback(f);
      b := Rollback(g);
    }

    /** A crash: the machine is found in a state it has been in, and what came later never happened. */
    method Crash(k: nat)
      requires Valid() && k < |journal|
      modifies this
      ensures Valid() && journal == old(journal)[..k + 1] && Now() == old(journal)[k]
    {
      var m := journal[k];
      active, previous, transaction, configured := m.pair.active, m.pair.previous, m.transaction, m.configured;
      journal := journal[..k + 1];
    }

    /**
     Any sequence of updates, rollbacks and recoveries, each of which may be cut off by a crash in
     any state it passed through: the whole history is one chain of lawful states.
     */
    method Session(commands: seq<Command>)
      requires Valid()
      modifies this
      ensures Valid() && |journal| >= |old(journal)| && journal[..|old(journal)|] == old(journal)
    {
      for i := 0 to |commands|
        invariant Valid() && old(journal) <= journal
      {
        var start := |journal| - 1;
        match commands[i].operation {
          case Update(channel, faults) => var r := UpdateStable(channel, faults);
          case Back(faults) => var r := Rollback(faults);
          case Resume(faults) => var r := Recover(faults);
        }
        if commands[i].crash.Some? && start <= commands[i].crash.value < |journal| {
          Crash(commands[i].crash.value);
        }
      }
    }
  }

  // ------------------------------------------------- markers that meet midway

  const NO_SWAP := SwapFaults(false, false, Rejected, false, Rejected)
  const NO_RESTORE := RestoreFaults(false, NO_SWAP, false, MarkerFaults(false, false), false)

  /** A rollback is cut off between its two marker writes: both name the release rolled back to. */
  method MeetInRollback(a: Marker, b: Marker) returns (u: Updater)
    requires ValidRelease(a.release) && ValidRelease(b.release) && a.release != b.release
    ensures u.Valid() && u.transaction.Some? && u.Now().pair == Pair(b, Some(b)) && !Distinct(u.Now().pair)
  {
    u := new Updater(a, Some(b));
    var faults := CommitFaults(true, MarkerFaults(true, false), false, NO_SWAP, false, false, false, NO_RESTORE);
    var r := u.Commit(Pair(b, Some(a)), faults);
  }

  /** An update fails before the service is touched, and its recovery is cut off between its two marker writes. */
  method MeetInRecovery(a: Marker, previous: Option<Marker>, c: Marker) returns (u: Updater)
    requires ValidMarkers(Pair(a, previous)) && Distinct(Pair(a, previous))
    requires ValidRelease(c.release) && c.release != a.release
    ensures u.Valid() && u.transaction.Some? && u.Now().pair == Pair(a, Some(a)) && !Distinct(u.Now().pair)
  {
    u := new Updater(a, previous);
    var faults := CommitFaults(true, MarkerFaults(true, true), false, NO_SWAP, false, false, false, NO_RESTORE);
    var r := u.Commit(Pair(c, Some(a)), faults);
    var s := u.Recover(RecoverFaults(true, false, true, MarkerFaults(true, false), false));
  }
}
