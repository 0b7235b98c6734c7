/** The webhook handler's batch (ingestion handler.go): deduplicate, audit, publish in order, roll back on refusal. */
module Ingestion {
  import opened Common
  import opened Alerts
  import opened Dedup

  datatype IngestError = PublishFailed(alert: Alert)

  /** Whether alert i is held back. When deduplication itself fails, nothing is. */
  predicate Suppressed(keys: set<string>, alerts: seq<Alert>, dedupOk: bool, i: nat)
    requires i < |alerts|
  {
    dedupOk && DuplicateInBatch(keys, alerts, i)
  }

  /** The first alert from i on that is to be published and the broker refuses; the batch's length if none. */
  function StopAt(keys: set<string>, alerts: seq<Alert>, dedupOk: bool, accepts: seq<bool>, i: nat): (n: nat)
    requires |accepts| == |alerts| && i <= |alerts|
    ensures i <= n <= |alerts|
    ensures n < |alerts| ==> !Suppressed(keys, alerts, dedupOk, n) && !accepts[n]
    ensures forall k | i <= k < n :: Suppressed(keys, alerts, dedupOk, k) || accepts[k]
    decreases |alerts| - i
  {
    if i == |alerts| || (!Suppressed(keys, alerts, dedupOk, i) && !accepts[i]) then i
    else StopAt(keys, alerts, dedupOk, accepts, i + 1)
  }

  /** Of the first n alerts, those not held back, in order. */
  function Forwarded(keys: set<string>, alerts: seq<Alert>, dedupOk: bool, n: nat): seq<Alert>
    requires n <= |alerts|
  {
    if n == 0 then []
    else Forwarded(keys, alerts, dedupOk, n - 1)
         + if Suppressed(keys, alerts, dedupOk, n - 1) then [] else [alerts[n - 1]]
  }

  /** The keys a refusal at alert `stop` takes back: none if there was no refusal or the command did not get through. */
  function RolledBack(alerts: seq<Alert>, stop: nat, rollback: Reply): set<string>
    requires stop <= |alerts|
  {
    if stop == |alerts| || rollback == NotExecuted then {} else {RedisKey(alerts[stop])}
  }

  lemma {:induction false} AllForwarded(keys: set<string>, alerts: seq<Alert>, n: nat)
    requires n <= |alerts|
    ensures Forwarded(keys, alerts, false, n) == alerts[..n]
  {
    if n > 0 {
      AllForwarded(keys, alerts, n - 1);
    }
  }

  datatype AuditRow = AuditRow(alert: Alert, deduplicated: bool)

  function AuditRows(keys: set<string>, alerts: seq<Alert>, dedupOk: bool): seq<AuditRow> {
    seq(|alerts|, i requires 0 <= i < |alerts| => AuditRow(alerts[i], Suppressed(keys, alerts, dedupOk, i)))
  }

  class Handler {
    const dedup: Deduplicator
    var audit: seq<AuditRow>
    var published: seq<Alert>

    constructor (dedup: Deduplicator)
      ensures this.dedup == dedup && audit == [] && published == []
    {
      this.dedup := dedup;
      audit := [];
      published := [];
    }

    /** processAlerts; the inputs say how Redis, the audit store, the broker, and Redis again on a rollback behave. */
    method ProcessAlerts(alerts: seq<Alert>, broken: Option<nat>, auditOk: bool, accepts: seq<bool>, rollback: Reply)
      returns (r: Result<(), IngestError>)
      requires |accepts| == |alerts|
      modifies this, dedup.cache
      ensures var keys := old(dedup.cache.keys); var stop := StopAt(keys, alerts, broken.None?, accepts, 0);
              var rolledBack := RolledBack(alerts, stop, rollback);
              && r == (if stop == |alerts| then Ok(()) else Err(PublishFailed(alerts[stop])))
              && published == old(published) + Forwarded(keys, alerts, broken.None?, stop)
              && audit == old(audit) + (if auditOk then AuditRows(keys, alerts, broken.None?) else [])
              && (broken.None? ==>
                    dedup.cache.keys == KeysAfterBatch(keys, alerts) - rolledBack)
              && (broken.Some? ==>
                    keys - KeysWith(alerts, Resolved) - rolledBack <= dedup.cache.keys <= keys + KeysWith(alerts, Firing) - rolledBack)
      ensures |audit| == |old(audit)| + if auditOk then |alerts| else 0
      ensures auditOk ==> forall i | 0 <= i < |alerts| ::
                audit[|old(audit)| + i] == AuditRow(alerts[i], broken.None? && RepeatsFiring(old(dedup.cache.keys), alerts, i))
      ensures broken.Some? ==>
                exists stop: nat | stop <= |alerts| ::
                  && published == old(published) + alerts[..stop] && (forall k | 0 <= k < stop :: accepts[k])
                  && if stop == |alerts| then r.Ok? else !accepts[stop] && r == Err(PublishFailed(alerts[stop]))
    {
      if |alerts| == 0 {
        assert published == published + alerts[..0];
        return Ok(());
      }
      ghost var keys := dedup.cache.keys;
      ghost var dedupOk := broken.None?;
      var classified := dedup.Classify(alerts, broken);
      var dup := if classified.Ok? then classified.value else seq(|alerts|, _ => false);
      assert forall i | 0 <= i < |alerts| :: dup[i] == Suppressed(keys, alerts, dedupOk, i);
      if auditOk {
        var items := seq(|alerts|, i requires 0 <= i < |alerts| => AuditRow(alerts[i], dup[i]));
        assert items == AuditRows(keys, alerts, dedupOk);
        assert forall i | 0 <= i < |alerts| :: dup[i] == (dedupOk && RepeatsFiring(keys, alerts, i));
        audit := audit + items;
      }
      r := PublishInOrder(alerts, dup, accepts, rollback, keys, dedupOk);
      ghost var stop := StopAt(keys, alerts, dedupOk, accepts, 0);
      if broken.Some? {
        AllForwarded(keys, alerts, stop);
      }
    }

    /** The publishing loop, with the rollback of the refused alert's key; an error of the rollback is discarded. */
    method PublishInOrder(alerts: seq<Alert>, dup: seq<bool>, accepts: seq<bool>, rollback: Reply,
                          ghost keys: set<string>, ghost dedupOk: bool)
      returns (r: Result<(), IngestError>)
      requires |dup| == |accepts| == |alerts|
      requires forall i | 0 <= i < |alerts| :: dup[i] == Suppressed(keys, alerts, dedupOk, i)
      modifies this`published, dedup.cache
      ensures var stop := StopAt(keys, alerts, dedupOk, accepts, 0);
              && r == (if stop == |alerts| then Ok(()) else Err(PublishFailed(alerts[stop])))
              && published == old(published) + Forwarded(keys, alerts, dedupOk, stop)
              && dedup.cache.keys == old(dedup.cache.keys) - RolledBack(alerts, stop, rollback)
    {
      for i := 0 to |alerts|
        invariant published == old(published) + Forwarded(keys, alerts, dedupOk, i)
        invariant StopAt(keys, alerts, dedupOk, accepts, i) == StopAt(keys, alerts, dedupOk, accepts, 0)
        invariant dedup.cache.keys == old(dedup.cache.keys)
      {
        if dup[i] {
          continue;
        }
        if !accepts[i] {
          var discarded := dedup.Clear(alerts[i], rollback);
          return Err(PublishFailed(alerts[i]));
        }
        published := published + [alerts[i]];
      }
      return Ok(());
    }
  }

  /** The keys left by a batch that the broker refused at alert `stop`. */
  function KeysAfterRefusal(keys: set<string>, alerts: seq<Alert>, stop: nat, rollback: Reply): set<string>
    requires stop < |alerts|
  {
    KeysAfterBatch(keys, alerts) - RolledBack(alerts, stop, rollback)
  }

  /** Every alert of the batch with this key is firing. */
  ghost predicate OnlyFires(alerts: seq<Alert>, i: nat)
    requires i < |alerts|
  {
    forall h | 0 <= h < |alerts| && Same(alerts[h], alerts[i]) :: alerts[h].status.Firing?
  }

  /**
   * Sent again, the refused alert is swallowed exactly when its rollback did not get through, it is firing, and the batch
   * holds no resolution of it.
   */
  lemma RefusedAlertPasses(keys: set<string>, alerts: seq<Alert>, stop: nat, rollback: Reply)
    requires stop < |alerts| && !Suppressed(keys, alerts, true, stop)
    ensures Suppressed(KeysAfterRefusal(keys, alerts, stop, rollback), alerts, true, stop)
            <==> rollback == NotExecuted && alerts[stop].status.Firing? && OnlyFires(alerts, stop)
  {
    BatchKeyMeaning(keys, alerts, RedisKey(alerts[stop]));
  }

  /**
   * The alerts behind the refused one were never published. Sent again, such an alert is swallowed exactly when it is
   * firing and the batch holds no resolution of it: its key was set before publishing and is not rolled back.
   */
  lemma UnpublishedSwallowed(keys: set<string>, alerts: seq<Alert>, stop: nat, rollback: Reply, i: nat)
    requires stop < i < |alerts| && !Suppressed(keys, alerts, true, stop) && !Suppressed(keys, alerts, true, i)
    ensures Suppressed(KeysAfterRefusal(keys, alerts, stop, rollback), alerts, true, i)
            <==> alerts[i].status.Firing? && OnlyFires(alerts, i)
  {
    BatchKeyMeaning(keys, alerts, RedisKey(alerts[i]));
    if alerts[i].status.Firing? && Same(alerts[stop], alerts[i]) {
      assert alerts[stop].status.Resolved?;
    }
  }

  /** Two new firing alerts, the first refused: the resend loses the second, and the first too if its rollback did not get through. */
  lemma SecondAlertLost(a: Alert, b: Alert, rollback: Reply)
    requires a.status.Firing? && b.status.Firing? && !Same(a, b)
    ensures StopAt({}, [a, b], true, [false, true], 0) == 0 && Forwarded({}, [a, b], true, 0) == []
    ensures var keys := KeysAfterRefusal({}, [a, b], 0, rollback);
            && StopAt(keys, [a, b], true, [true, true], 0) == 2
            && Forwarded(keys, [a, b], true, 2) == if rollback == NotExecuted then [] else [a]
  {
    var alerts := [a, b];
    var keys := KeysAfterRefusal({}, alerts, 0, rollback);
    assert !Suppressed({}, alerts, true, 0) && !Suppressed({}, alerts, true, 1);
    RefusedAlertPasses({}, alerts, 0, rollback);
    UnpublishedSwallowed({}, alerts, 0, rollback, 1);
    assert Forwarded(keys, alerts, true, 1) == if rollback == NotExecuted then [] else [a];
  }
}
