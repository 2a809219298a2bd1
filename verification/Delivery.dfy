/** One job run: dumping the targets and handing the dumps to the storages
    (interfaces/storage.go, modules/backup/disc_files/disc_files.go, modules/backup/backup.go).

    Dumps and deliveries succeed or fail as they please.  A local storage that accepts a dump may
    move the temporary file away; see LocalDelivery for when it does. */
module Delivery {
  import opened Options

  datatype Storage = Storage(isLocal: bool)

  function Rank(st: Storage): int {
    if st.isLocal then 1 else 0
  }

  // What `sort.Sort` leaves with `Less`.
  ghost predicate Ordered(storages: seq<Storage>) {
    forall i, j :: 0 <= i < j < |storages| ==> Rank(storages[i]) <= Rank(storages[j])
  }

  ghost predicate AtMostOneLocal(storages: seq<Storage>) {
    forall i, j :: 0 <= i < j < |storages| ==> !(storages[i].isLocal && storages[j].isLocal)
  }

  // No storage comes after a local one.
  ghost predicate LocalLast(storages: seq<Storage>) {
    forall i :: 0 <= i < |storages| - 1 ==> !storages[i].isLocal
  }

  lemma LocalLastIff(storages: seq<Storage>)
    ensures LocalLast(storages) <==> Ordered(storages) && AtMostOneLocal(storages)
  {
    if Ordered(storages) && AtMostOneLocal(storages) {
      forall i | 0 <= i < |storages| - 1
        ensures !storages[i].isLocal
      {
        assert Rank(storages[i]) <= Rank(storages[i + 1]);
      }
    }
  }

  // The answers of all storages to one attempt at one object.
  type Round = seq<bool>

  // One call of a storage's DeliverBackup: which storage, which object, and its answer.
  datatype Call = Call(storage: nat, ofs: string, ok: bool)

  // A round is one call of each storage, in order.
  function CallsOf(ofs: string, round: Round): seq<Call> {
    seq(|round|, i requires 0 <= i < |round| => Call(i, ofs, round[i]))
  }

  function CallsOfAll(ofs: string, rounds: seq<Round>): seq<Call> {
    if rounds == [] then [] else CallsOfAll(ofs, rounds[..|rounds| - 1]) + CallsOf(ofs, rounds[|rounds| - 1])
  }

  function CallsFor(calls: seq<Call>, ofs: string): seq<Call> {
    if calls == [] then []
    else
      var last := calls[|calls| - 1];
      CallsFor(calls[..|calls| - 1], ofs) + if last.ofs == ofs then [last] else []
  }

  // How many of some calls were answered with an error.
  function Refused(calls: seq<Call>): nat {
    if calls == [] then 0
    else Refused(calls[..|calls| - 1]) + (if calls[|calls| - 1].ok then 0 else 1)
  }

  lemma RefusedOne(calls: seq<Call>, call: Call)
    ensures Refused(calls + [call]) == Refused(calls) + if call.ok then 0 else 1
  {
    assert (calls + [call])[..|calls|] == calls;
  }

  lemma {:induction false} NoneRefused(calls: seq<Call>)
    ensures Refused(calls) == 0 <==> forall i :: 0 <= i < |calls| ==> calls[i].ok
  {
    if calls != [] {
      var front := calls[..|calls| - 1];
      NoneRefused(front);
      assert forall i :: 0 <= i < |front| ==> calls[i] == front[i];
    }
  }

  lemma CallsForLast(calls: seq<Call>, last: Call, ofs: string)
    ensures CallsFor(calls + [last], ofs) == CallsFor(calls, ofs) + if last.ofs == ofs then [last] else []
  {
    assert (calls + [last])[..|calls|] == calls;
  }

  lemma {:induction false} CallsForJoin(a: seq<Call>, b: seq<Call>, ofs: string)
    ensures CallsFor(a + b, ofs) == CallsFor(a, ofs) + CallsFor(b, ofs)
  {
    if b == [] {
      assert a + b == a;
    } else {
      hide CallsFor;
      var front, last := b[..|b| - 1], b[|b| - 1];
      CallsForJoin(a, front, ofs);
      assert front + [last] == b && a + front + [last] == a + b;
      CallsForLast(a + front, last, ofs);
      CallsForLast(front, last, ofs);
    }
  }

  lemma {:induction false} CallsForRound(ofs: string, round: Round, other: string)
    ensures CallsFor(CallsOf(ofs, round), other) == if other == ofs then CallsOf(ofs, round) else []
  {
    if round != [] {
      var front := round[..|round| - 1];
      CallsForRound(ofs, front, other);
      assert CallsOf(ofs, round)[..|round| - 1] == CallsOf(ofs, front);
      assert CallsOf(ofs, round) == CallsOf(ofs, front) + [Call(|front|, ofs, round[|front|])];
    }
  }

  lemma RoundLogged(calls: seq<Call>, ofs: string, round: Round)
    ensures forall o :: CallsFor(calls + CallsOf(ofs, round), o)
                        == CallsFor(calls, o) + if o == ofs then CallsOf(ofs, round) else []
  {
    forall o
      ensures CallsFor(calls + CallsOf(ofs, round), o)
              == CallsFor(calls, o) + if o == ofs then CallsOf(ofs, round) else []
    {
      CallsForJoin(calls, CallsOf(ofs, round), o);
      CallsForRound(ofs, round, o);
    }
  }

  lemma RoundAdded(ofs: string, rounds: seq<Round>, round: Round)
    ensures CallsOfAll(ofs, rounds + [round]) == CallsOfAll(ofs, rounds) + CallsOf(ofs, round)
  {
    assert (rounds + [round])[..|rounds|] == rounds;
  }

  lemma EmptyRound(ofs: string)
    ensures CallsOf(ofs, []) == [] && AllAccepted([]) && !Accepted([])
  {
  }

  lemma NotLocalYet(storages: seq<Storage>, i: nat)
    requires i < |storages|
    ensures LocalLast(storages) && i < |storages| - 1 ==> !storages[i].isLocal
  {
  }

  lemma CallAdded(ofs: string, round: Round, ok: bool)
    ensures CallsOf(ofs, round + [ok]) == CallsOf(ofs, round) + [Call(|round|, ofs, ok)]
  {
  }

  predicate Accepted(round: Round) {
    exists i :: 0 <= i < |round| && round[i]
  }

  // Attempts at one object: only after a round of refusals is there another one.
  ghost predicate RetriedOnlyIfRefused(rounds: seq<Round>) {
    forall i :: 0 <= i < |rounds| - 1 ==> !Accepted(rounds[i])
  }

  ghost predicate SomeoneAccepted(rounds: seq<Round>) {
    exists i :: 0 <= i < |rounds| && Accepted(rounds[i])
  }

  datatype DumpObject = DumpObject(delivered: bool)

  // The record of an object agrees with the attempts made at it at `n` storages.
  ghost predicate RecordOk(n: nat, faultless: bool, dump: DumpObject, rounds: seq<Round>, metric: Option<bool>) {
    && (forall i :: 0 <= i < |rounds| ==> |rounds[i]| == n)
    && RetriedOnlyIfRefused(rounds)
    && (dump.delivered <==> SomeoneAccepted(rounds))
    && (metric == if rounds == [] then None else Some(AllAccepted(rounds[|rounds| - 1])))
    && (faultless ==> |rounds| <= 1 && forall i :: 0 <= i < |rounds| ==> AllAccepted(rounds[i]))
  }

  lemma RecordAfterRound(n: nat, faultless: bool, rounds: seq<Round>, metric: Option<bool>, round: Round)
    requires n > 0 && RecordOk(n, faultless, DumpObject(false), rounds, metric)
    requires |round| == n && (faultless ==> AllAccepted(round))
    ensures RecordOk(n, faultless, DumpObject(Accepted(round)), rounds + [round], Some(AllAccepted(round)))
  {
    RoundsGrow(rounds, round);
    forall i | 0 <= i < |rounds|
      ensures AllAccepted(rounds[i]) ==> Accepted(rounds[i])
    {
      AllMeansSome(rounds[i]);
    }
    assert faultless ==> rounds == [];
  }

  lemma RecordMeans(n: nat, faultless: bool, dump: DumpObject, rounds: seq<Round>, metric: Option<bool>)
    requires RecordOk(n, faultless, dump, rounds, metric) && rounds != []
    ensures RetriedOnlyIfRefused(rounds) && (dump.delivered <==> SomeoneAccepted(rounds))
    ensures faultless ==> exists round :: rounds == [round] && |round| == n && AllAccepted(round)
  {
    assert faultless ==> rounds == [rounds[0]];
  }

  lemma AllMeansSome(round: Round)
    requires |round| > 0
    ensures AllAccepted(round) ==> Accepted(round)
  {
    assert AllAccepted(round) ==> round[0];
  }

  lemma NewRecord(n: nat, faultless: bool)
    ensures RecordOk(n, faultless, DumpObject(false), [], None)
  {
  }

  // The calls made are those of the rounds, in order, and no others.
  ghost predicate Logged(calls: seq<Call>, rounds: map<string, seq<Round>>) {
    forall ofs :: CallsFor(calls, ofs) == CallsOfAll(ofs, if ofs in rounds then rounds[ofs] else [])
  }

  lemma LogRound(calls: seq<Call>, rounds: map<string, seq<Round>>, ofs: string, round: Round)
    requires Logged(calls, rounds) && ofs in rounds
    ensures Logged(calls + CallsOf(ofs, round), rounds[ofs := rounds[ofs] + [round]])
  {
    RoundLogged(calls, ofs, round);
    RoundAdded(ofs, rounds[ofs], round);
    hide CallsFor, CallsOfAll, CallsOf;
  }

  lemma LoggedMeans(calls: seq<Call>, rounds: map<string, seq<Round>>)
    requires Logged(calls, rounds)
    ensures forall ofs :: ofs in rounds ==> CallsFor(calls, ofs) == CallsOfAll(ofs, rounds[ofs])
    ensures forall ofs :: ofs !in rounds ==> CallsFor(calls, ofs) == []
  {
  }

  lemma LogNone(calls: seq<Call>, rounds: map<string, seq<Round>>, ofs: string)
    requires Logged(calls, rounds) && ofs !in rounds
    ensures Logged(calls, rounds[ofs := []])
  {
    hide CallsFor, CallsOfAll;
  }

  lemma NoneFails(targets: set<string>, dumpFails: set<string>)
    ensures |targets * dumpFails| == 0 <==> targets !! dumpFails
  {
    if targets * dumpFails == {} {
      forall x | x in targets
        ensures x !in dumpFails
      {
        assert x in dumpFails ==> x in targets * dumpFails;
      }
    }
  }

  // The targets handled while `pending` are left: those dumped, and how many failed.
  ghost function Dumped(targets: set<string>, pending: set<string>, dumpFails: set<string>): set<string> {
    targets - pending - dumpFails
  }

  ghost function Failed(targets: set<string>, pending: set<string>, dumpFails: set<string>): nat {
    |(targets - pending) * dumpFails|
  }

  lemma OneTargetMore(targets: set<string>, pending: set<string>, dumpFails: set<string>, ofs: string)
    requires pending <= targets && ofs in pending
    ensures ofs !in Dumped(targets, pending, dumpFails)
    ensures Dumped(targets, pending - {ofs}, dumpFails)
            == Dumped(targets, pending, dumpFails) + if ofs in dumpFails then {} else {ofs}
    ensures Failed(targets, pending - {ofs}, dumpFails)
            == Failed(targets, pending, dumpFails) + if ofs in dumpFails then 1 else 0
  {
    var before, after := (targets - pending) * dumpFails, (targets - (pending - {ofs})) * dumpFails;
    assert after == if ofs in dumpFails then before + {ofs} else before;
  }

  lemma AllAndNothing(targets: set<string>, dumpFails: set<string>)
    ensures Dumped(targets, targets, dumpFails) == {} && Failed(targets, targets, dumpFails) == 0
    ensures Dumped(targets, {}, dumpFails) == targets - dumpFails
    ensures Failed(targets, {}, dumpFails) == |targets * dumpFails|
  {
    assert (targets - targets) * dumpFails == {} && targets - {} == targets;
  }

  class Job {
    const storages: seq<Storage>
    const targets: set<string>
    const deferredCopying: bool
    // A local storage that fails has not moved the temporary file: it failed before the rename or after
    // one that did not work (LocalDelivery.FailedDeliveryKeepsTempIff).
    const orderly: bool
    // No storage ever fails.
    const faultless: bool

    var dumpedObjects: map<string, DumpObject>
    var temps: set<string>
    var deliveryOk: map<string, bool>
    ghost var rounds: map<string, seq<Round>>
    ghost var calls: seq<Call>  // every call of DeliverBackup, in order
    ghost var misses: nat  // those that found no temporary file

    constructor (storages: seq<Storage>, targets: set<string>, deferredCopying: bool, orderly: bool, faultless: bool)
      ensures this.storages == storages && this.targets == targets && this.deferredCopying == deferredCopying
      ensures this.orderly == orderly && this.faultless == faultless
      ensures dumpedObjects == map[] && temps == {} && rounds == map[] && deliveryOk == map[]
      ensures calls == [] && misses == 0
    {
      this.storages, this.targets, this.deferredCopying := storages, targets, deferredCopying;
      this.orderly, this.faultless := orderly, faultless;
      dumpedObjects, temps, deliveryOk, rounds, calls, misses := map[], {}, map[], map[], [], 0;
    }

    ghost predicate Consistent(ofs: string)
      reads this
    {
      && ofs in rounds && ofs in dumpedObjects
      && RecordOk(|storages|, faultless, dumpedObjects[ofs], rounds[ofs],
                  if ofs in deliveryOk then Some(deliveryOk[ofs]) else None)
    }

    ghost predicate Valid()
      reads this
    {
      Recorded() && Logged(calls, rounds)
    }

    // The record of each object agrees with the rounds it has been through.
    ghost predicate Recorded()
      reads this
    {
      && storages != []
      && dumpedObjects.Keys == rounds.Keys && deliveryOk.Keys <= dumpedObjects.Keys
      && (forall ofs :: ofs in dumpedObjects ==> Consistent(ofs))
    }

    // The temporary files of undelivered objects are all there, and none was ever missed.
    ghost predicate NothingMissed()
      reads this
    {
      misses == 0 && forall ofs :: ofs in dumpedObjects && !dumpedObjects[ofs].delivered ==> ofs in temps
    }

    method DeliverBackup(i: nat, ofs: string) returns (ok: bool)
      requires i < |storages|
      modifies this`temps, this`misses, this`calls
      ensures calls == old(calls) + [Call(i, ofs, ok)]
      ensures misses == if ofs in old(temps) then old(misses) else old(misses) + 1
      ensures temps == old(temps) || temps == old(temps) - {ofs}
      ensures !storages[i].isLocal || (orderly && !ok) ==> temps == old(temps)
      ensures faultless ==> ok
    {
      if ofs !in temps {
        misses := misses + 1;
      }
      ok := *;
      if faultless {
        ok := true;
      }
      calls := calls + [Call(i, ofs, ok)];
      if storages[i].isLocal && (ok || !orderly) {
        var moves: bool := *;
        if moves {
          temps := temps - {ofs};
        }
      }
    }

    // Every storage in turn.
    method Offer(ofs: string) returns (deliveryErrs: nat, ghost round: Round)
      modifies this`temps, this`misses, this`calls
      ensures calls == old(calls) + CallsOf(ofs, round)
      ensures |round| == |storages| && deliveryErrs <= |storages|
      ensures Refused(calls) == Refused(old(calls)) + deliveryErrs
      ensures (deliveryErrs == 0 <==> AllAccepted(round)) && (deliveryErrs < |storages| <==> Accepted(round))
      ensures faultless ==> AllAccepted(round)
      ensures temps == old(temps) || temps == old(temps) - {ofs}
      ensures LocalLast(storages) && orderly && ofs in old(temps) ==>
                misses == old(misses) && (ofs in temps || Accepted(round))
    {
      hide Refused, CallsOf, Accepted, AllAccepted, LocalLast;
      EmptyRound(ofs);
      deliveryErrs, round := 0, [];
      for i := 0 to |storages|
        invariant |round| == i && calls == old(calls) + CallsOf(ofs, round)
        invariant Refused(calls) == Refused(old(calls)) + deliveryErrs
        invariant deliveryErrs <= i && (deliveryErrs == 0 <==> AllAccepted(round)) && (deliveryErrs < i <==> Accepted(round))
        invariant faultless ==> AllAccepted(round)
        invariant temps == old(temps) || temps == old(temps) - {ofs}
        invariant LocalLast(storages) && orderly && ofs in old(temps) ==>
                    misses == old(misses) && (ofs !in temps ==> i == |storages| && Accepted(round))
      {
        RefusedOne(calls, Call(i, ofs, true));
        RefusedOne(calls, Call(i, ofs, false));
        NotLocalYet(storages, i);
        var ok := DeliverBackup(i, ofs);
        RoundGrows(round, ok);
        CallAdded(ofs, round, ok);
        round := round + [ok];
        if !ok {
          deliveryErrs := deliveryErrs + 1;
        }
      }
    }

    // One object at every storage in turn; it is delivered if not all of them failed.
    method DeliverObject(ofs: string) returns (errors: nat)
      requires Valid() && ofs in dumpedObjects && !dumpedObjects[ofs].delivered
      modifies this
      ensures Valid() && dumpedObjects.Keys == old(dumpedObjects).Keys
      ensures Refused(calls) == Refused(old(calls)) + errors
      ensures |rounds[ofs]| == |old(rounds)[ofs]| + 1 && rounds[ofs][..|old(rounds)[ofs]|] == old(rounds)[ofs]
      ensures forall o :: o in dumpedObjects && o != ofs ==>
                rounds[o] == old(rounds)[o] && dumpedObjects[o] == old(dumpedObjects)[o]
      ensures LocalLast(storages) && orderly && old(NothingMissed()) ==> NothingMissed()
    {
      hide RecordOk, AllAccepted, Accepted, LocalLast, Logged, CallsOf;
      ghost var before := calls;
      var deliveryErrs;
      ghost var round;
      deliveryErrs, round := Offer(ofs);
      errors := deliveryErrs;
      Enter(ofs, deliveryErrs, round, before);
    }

    // Books the outcome of a round.
    method Enter(ofs: string, deliveryErrs: nat, ghost round: Round, ghost before: seq<Call>)
      requires Recorded() && ofs in dumpedObjects && !dumpedObjects[ofs].delivered
      requires Logged(before, rounds) && calls == before + CallsOf(ofs, round)
      requires |round| == |storages| && (faultless ==> AllAccepted(round))
      requires (deliveryErrs == 0 <==> AllAccepted(round)) && (deliveryErrs < |storages| <==> Accepted(round))
      modifies this`dumpedObjects, this`deliveryOk, this`rounds
      ensures Valid() && dumpedObjects.Keys == old(dumpedObjects).Keys
      ensures dumpedObjects == old(dumpedObjects)[ofs := DumpObject(Accepted(round))]
      ensures rounds == old(rounds)[ofs := old(rounds)[ofs] + [round]]
    {
      hide RecordOk, AllAccepted, Accepted, Logged, CallsOf;
      assert Consistent(ofs);
      RecordAfterRound(|storages|, faultless, rounds[ofs],
                       if ofs in deliveryOk then Some(deliveryOk[ofs]) else None, round);
      LogRound(before, rounds, ofs, round);
      deliveryOk := deliveryOk[ofs := deliveryErrs == 0];
      if deliveryErrs < |storages| {
        dumpedObjects := dumpedObjects[ofs := DumpObject(true)];
      }
      rounds := rounds[ofs := rounds[ofs] + [round]];
      forall o | o in dumpedObjects
        ensures Consistent(o)
      {
        assert o != ofs ==> old(Consistent(o));
      }
    }

    // Every object not yet delivered gets one more round.
    method Delivery() returns (errors: nat)
      requires Valid()
      modifies this
      ensures Valid() && dumpedObjects.Keys == old(dumpedObjects).Keys
      ensures Refused(calls) == Refused(old(calls)) + errors
      ensures forall o :: o in dumpedObjects && old(dumpedObjects)[o].delivered ==> dumpedObjects[o].delivered
      ensures forall o :: o in dumpedObjects ==>
                |rounds[o]| == |old(rounds)[o]| + (if old(dumpedObjects)[o].delivered then 0 else 1)
      ensures LocalLast(storages) && orderly && old(NothingMissed()) ==> NothingMissed()
    {
      hide LocalLast, RecordOk, Logged, Refused;
      errors := 0;
      var pending := dumpedObjects.Keys;
      while pending != {}
        invariant Valid() && dumpedObjects.Keys == old(dumpedObjects).Keys && pending <= dumpedObjects.Keys
        invariant forall o :: o in pending ==> rounds[o] == old(rounds)[o] && dumpedObjects[o] == old(dumpedObjects)[o]
        invariant forall o :: o in dumpedObjects && o !in pending ==>
                    |rounds[o]| == |old(rounds)[o]| + (if old(dumpedObjects)[o].delivered then 0 else 1)
        invariant LocalLast(storages) && orderly && old(NothingMissed()) ==> NothingMissed()
        invariant Refused(calls) == Refused(old(calls)) + errors
        invariant forall o :: o in dumpedObjects && old(dumpedObjects)[o].delivered ==> dumpedObjects[o].delivered
        decreases pending
      {
        var ofs :| ofs in pending;
        if !dumpedObjects[ofs].delivered {
          var errs := DeliverObject(ofs);
          errors := errors + errs;
        }
        pending := pending - {ofs};
      }
    }

    // With deferred copying nothing is offered before the last target, with immediate copying everything.
    ghost predicate Offered()
      reads this
    {
      dumpedObjects.Keys == rounds.Keys
      && forall ofs :: ofs in dumpedObjects ==>
           if deferredCopying then rounds[ofs] == [] && !dumpedObjects[ofs].delivered else rounds[ofs] != []
    }

    // The body of the loop: a dump that fails is an error, one that succeeds is delivered unless
    // copying is deferred.
    method BackupTarget(ofs: string, dumpFails: set<string>) returns (errors: nat)
      requires Valid() && ofs !in dumpedObjects && Offered()
      modifies this
      ensures Valid() && Offered()
      ensures dumpedObjects.Keys == old(dumpedObjects).Keys + (if ofs in dumpFails then {} else {ofs})
      ensures !deferredCopying && ofs !in dumpFails ==>
                forall o :: o in dumpedObjects && (o == ofs || !old(dumpedObjects)[o].delivered) ==>
                  |rounds[o]| == (if o == ofs then 1 else |old(rounds)[o]| + 1)
      ensures errors + Refused(old(calls)) == Refused(calls) + (if ofs in dumpFails then 1 else 0)
      ensures LocalLast(storages) && orderly && old(NothingMissed()) ==> NothingMissed()
    {
      hide LocalLast, RecordOk, Logged, Refused;
      if ofs in dumpFails {
        return 1;
      }
      errors := 0;
      AddDump(ofs);
      if !deferredCopying {
        errors := Delivery();
      }
    }

    // Every target once, in any order.
    method BackupTargets(dumpFails: set<string>) returns (errors: nat)
      requires Valid() && Offered() && dumpedObjects == map[] && Refused(calls) == 0 && misses == 0
      modifies this
      ensures Valid() && Offered()
      ensures dumpedObjects.Keys == targets - dumpFails
      ensures errors == |targets * dumpFails| + Refused(calls)
      ensures LocalLast(storages) && orderly ==> NothingMissed()
    {
      hide LocalLast, Refused, Consistent, Valid, Offered, Dumped, Failed;
      AllAndNothing(targets, dumpFails);
      errors := 0;
      var pending := targets;
      while pending != {}
        invariant Valid() && Offered() && pending <= targets
        invariant dumpedObjects.Keys == Dumped(targets, pending, dumpFails)
        invariant errors == Failed(targets, pending, dumpFails) + Refused(calls)
        invariant LocalLast(storages) && orderly ==> NothingMissed()
        decreases pending
      {
        var ofsPart :| ofsPart in pending;
        OneTargetMore(targets, pending, dumpFails, ofsPart);
        pending := pending - {ofsPart};
        var errs := BackupTarget(ofsPart, dumpFails);
        errors := errors + errs;
      }
    }

    // Dumps the targets in any order.  Immediate copying delivers after each dump what is not yet
    // delivered; a last round follows in either mode.
    method DoBackup(dumpFails: set<string>) returns (errors: nat)
      requires storages != [] && dumpedObjects == map[] && rounds == map[] && deliveryOk == map[]
      requires calls == [] && misses == 0
      modifies this
      ensures Valid() && dumpedObjects.Keys == targets - dumpFails
      ensures forall ofs :: ofs in dumpedObjects ==>
                rounds[ofs] != [] && CallsFor(calls, ofs) == CallsOfAll(ofs, rounds[ofs])
      ensures forall ofs :: ofs !in dumpedObjects ==> CallsFor(calls, ofs) == []
      ensures forall ofs :: ofs in dumpedObjects ==>
                if deferredCopying then |rounds[ofs]| == 1 else |rounds[ofs]| >= 2 || dumpedObjects[ofs].delivered
      ensures forall ofs :: ofs in dumpedObjects ==>
                && RetriedOnlyIfRefused(rounds[ofs])
                && (dumpedObjects[ofs].delivered <==> SomeoneAccepted(rounds[ofs]))
                && (faultless ==> exists round :: rounds[ofs] == [round] && |round| == |storages| && AllAccepted(round))
      ensures errors == |targets * dumpFails| + Refused(calls)
      ensures errors == 0 <==> targets !! dumpFails && forall i :: 0 <= i < |calls| ==> calls[i].ok
      ensures LocalLast(storages) && orderly ==> misses == 0
    {
      hide LocalLast, RecordOk, RetriedOnlyIfRefused, SomeoneAccepted, AllAccepted, Logged, CallsFor, CallsOfAll, Refused,
           Consistent, Valid;
      Fresh();
      errors := BackupTargets(dumpFails);
      UndeliveredUnoffered();
      var errs := Delivery();
      errors := errors + errs;
      NoneRefused(calls);
      NoneFails(targets, dumpFails);
      RecordsMean();
    }

    // A job that has done nothing yet.
    lemma Fresh()
      requires storages != [] && dumpedObjects == map[] && rounds == map[] && deliveryOk == map[] && calls == []
      ensures Valid() && Offered() && Refused(calls) == 0
    {
      NothingLogged();
    }

    lemma UndeliveredUnoffered()
      requires Valid()
      ensures dumpedObjects.Keys == rounds.Keys
      ensures forall ofs :: ofs in dumpedObjects && rounds[ofs] == [] ==> !dumpedObjects[ofs].delivered
    {
      hide RecordOk, Logged;
      forall ofs | ofs in dumpedObjects && rounds[ofs] == []
        ensures !dumpedObjects[ofs].delivered
      {
        NoRoundNoDelivery(ofs);
      }
    }

    lemma RecordsMean()
      requires Valid() && forall ofs :: ofs in dumpedObjects && ofs in rounds ==> rounds[ofs] != []
      ensures dumpedObjects.Keys == rounds.Keys
      ensures forall ofs :: ofs in dumpedObjects ==> CallsFor(calls, ofs) == CallsOfAll(ofs, rounds[ofs])
      ensures forall ofs :: ofs !in dumpedObjects ==> CallsFor(calls, ofs) == []
      ensures forall ofs :: ofs in dumpedObjects ==>
                && RetriedOnlyIfRefused(rounds[ofs])
                && (dumpedObjects[ofs].delivered <==> SomeoneAccepted(rounds[ofs]))
                && (faultless ==> exists round :: rounds[ofs] == [round] && |round| == |storages| && AllAccepted(round))
    {
      hide RecordOk, Logged, RetriedOnlyIfRefused, SomeoneAccepted, AllAccepted, CallsFor, CallsOfAll;
      LoggedMeans(calls, rounds);
      forall ofs | ofs in dumpedObjects
        ensures RetriedOnlyIfRefused(rounds[ofs]) && (dumpedObjects[ofs].delivered <==> SomeoneAccepted(rounds[ofs]))
        ensures faultless ==> exists round :: rounds[ofs] == [round] && |round| == |storages| && AllAccepted(round)
      {
        assert Consistent(ofs);
        RecordMeans(|storages|, faultless, dumpedObjects[ofs], rounds[ofs],
                    if ofs in deliveryOk then Some(deliveryOk[ofs]) else None);
      }
    }

    lemma NothingLogged()
      ensures Logged([], map[]) && Refused([]) == 0
    {
    }

    lemma NoRoundNoDelivery(ofs: string)
      requires Valid() && ofs in dumpedObjects && rounds[ofs] == []
      ensures !dumpedObjects[ofs].delivered
    {
      assert Consistent(ofs);
    }

    method AddDump(ofs: string)
      requires Valid() && ofs !in dumpedObjects
      modifies this`dumpedObjects, this`rounds, this`temps
      ensures Valid() && dumpedObjects.Keys == old(dumpedObjects).Keys + {ofs}
      ensures dumpedObjects[ofs] == DumpObject(false) && rounds[ofs] == []
      ensures forall o :: o in old(dumpedObjects) ==> rounds[o] == old(rounds)[o] && dumpedObjects[o] == old(dumpedObjects)[o]
      ensures old(NothingMissed()) ==> NothingMissed()
    {
      hide RecordOk, Logged;
      assert ofs !in deliveryOk;
      NewRecord(|storages|, faultless);
      LogNone(calls, rounds, ofs);
      dumpedObjects := dumpedObjects[ofs := DumpObject(false)];
      rounds := rounds[ofs := []];
      temps := temps + {ofs};
      forall o | o in dumpedObjects
        ensures Consistent(o)
      {
        assert o != ofs ==> old(Consistent(o));
      }
    }
  }

  ghost predicate AllAccepted(round: Round) {
    forall i :: 0 <= i < |round| ==> round[i]
  }

  lemma RoundGrows(round: Round, ok: bool)
    ensures Accepted(round + [ok]) <==> Accepted(round) || ok
    ensures AllAccepted(round + [ok]) <==> AllAccepted(round) && ok
  {
    var after := round + [ok];
    assert after[|round|] == ok;
    assert forall i :: 0 <= i < |round| ==> after[i] == round[i];
  }

  lemma RoundsGrow(rounds: seq<Round>, round: Round)
    requires !SomeoneAccepted(rounds)
    ensures RetriedOnlyIfRefused(rounds + [round])
    ensures SomeoneAccepted(rounds + [round]) <==> Accepted(round)
  {
    var after := rounds + [round];
    assert after[|rounds|] == round;
    assert forall i :: 0 <= i < |rounds| ==> after[i] == rounds[i];
  }
}
