/**
 * Alert deduplication (dedup.go, redis.go): the pipelined batch against the alert-by-alert loop it replaces.
 * Keys do not expire while a batch is handled.
 */
module Dedup {
  import opened Common
  import opened Alerts

  function RedisKey(a: Alert): string { "oncall:dedup:" + a.fingerprint }

  predicate Same(a: Alert, b: Alert) { RedisKey(a) == RedisKey(b) }

  /** Two alerts share a key exactly when they share a fingerprint. */
  lemma SameFingerprint(a: Alert, b: Alert)
    ensures Same(a, b) <==> a.fingerprint == b.fingerprint
  {
    assert RedisKey(a)[13..] == a.fingerprint && RedisKey(b)[13..] == b.fingerprint;
  }

  // ---- What the two forms should answer ----

  /** An alert handled on its own: SETNX for a firing one, DEL for a resolved one. */
  function KeysAfterOne(keys: set<string>, a: Alert): set<string> {
    if a.status.Resolved? then keys - {RedisKey(a)} else keys + {RedisKey(a)}
  }

  /** The keys left by handling alerts one by one. */
  function KeysAfterEach(keys: set<string>, alerts: seq<Alert>): set<string> {
    if alerts == [] then keys
    else KeysAfterOne(KeysAfterEach(keys, alerts[..|alerts| - 1]), alerts[|alerts| - 1])
  }

  /** One by one, alert i is a duplicate when it is firing and its key is present at its turn. */
  predicate DuplicateInTurn(keys: set<string>, alerts: seq<Alert>, i: nat)
    requires i < |alerts|
  {
    alerts[i].status.Firing? && RedisKey(alerts[i]) in KeysAfterEach(keys, alerts[..i])
  }

  /** In a batch, alert i is a duplicate when it is firing and its key was there before, or an earlier firing alert has it. */
  predicate DuplicateInBatch(keys: set<string>, alerts: seq<Alert>, i: nat)
    requires i < |alerts|
  {
    alerts[i].status.Firing?
    && (RedisKey(alerts[i]) in keys || exists j :: 0 <= j < i && alerts[j].status.Firing? && Same(alerts[j], alerts[i]))
  }

  /** Alert i is firing, and its fingerprint was remembered before the batch or fired earlier in it. */
  predicate RepeatsFiring(keys: set<string>, alerts: seq<Alert>, i: nat)
    requires i < |alerts|
  {
    alerts[i].status.Firing?
    && ("oncall:dedup:" + alerts[i].fingerprint in keys
        || exists j :: 0 <= j < i && alerts[j].status.Firing? && alerts[j].fingerprint == alerts[i].fingerprint)
  }

  /** A batch answers an alert by the remembered fingerprints and the earlier firing alerts of its own fingerprint alone. */
  lemma BatchByFingerprint(keys: set<string>, alerts: seq<Alert>, i: nat)
    requires i < |alerts|
    ensures DuplicateInBatch(keys, alerts, i) <==> RepeatsFiring(keys, alerts, i)
  {
    forall j | 0 <= j < i ensures Same(alerts[j], alerts[i]) <==> alerts[j].fingerprint == alerts[i].fingerprint {
      SameFingerprint(alerts[j], alerts[i]);
    }
  }

  function KeysWith(alerts: seq<Alert>, status: AlertStatus): set<string> {
    set a | a in alerts && a.status == status :: RedisKey(a)
  }

  function KeysAfterBatch(keys: set<string>, alerts: seq<Alert>): set<string> {
    keys + KeysWith(alerts, Firing) - KeysWith(alerts, Resolved)
  }

  datatype DedupError = CacheFailed

  /** What becomes of a single command: answered, never executed, or executed with its answer lost. */
  datatype Reply = Received | NotExecuted | Lost

  /** The key store. A pipeline that breaks may have run any prefix of its commands. */
  class RedisCache {
    var keys: set<string>

    constructor ()
      ensures keys == {}
    {
      keys := {};
    }

    method SetNX(key: string, reply: Reply) returns (r: Result<bool, DedupError>)
      modifies this
      ensures r == if reply == Received then Ok(key !in old(keys)) else Err(CacheFailed)
      ensures keys == if reply == NotExecuted then old(keys) else old(keys) + {key}
    {
      if reply == NotExecuted {
        return Err(CacheFailed);
      }
      var isNew := key !in keys;
      keys := keys + {key};
      return if reply == Lost then Err(CacheFailed) else Ok(isNew);
    }

    method Del(key: string, reply: Reply) returns (r: Result<(), DedupError>)
      modifies this
      ensures r == if reply == Received then Ok(()) else Err(CacheFailed)
      ensures keys == if reply == NotExecuted then old(keys) else old(keys) - {key}
    {
      if reply == NotExecuted {
        return Err(CacheFailed);
      }
      keys := keys - {key};
      return if reply == Lost then Err(CacheFailed) else Ok(());
    }

    /** Apply: every SETNX, then every DEL; `broken` is how many commands ran when the connection broke, if it did. */
    method Apply(setKeys: seq<string>, delKeys: seq<string>, broken: Option<nat>) returns (r: Result<seq<bool>, DedupError>)
      modifies this
      ensures r.Err? <==> broken.Some? && (setKeys != [] || delKeys != [])
      ensures r.Ok? ==> |r.value| == |setKeys|
      ensures r.Ok? ==> forall i | 0 <= i < |setKeys| :: r.value[i] <==> setKeys[i] !in old(keys) && setKeys[i] !in setKeys[..i]
      ensures r.Ok? ==> keys == old(keys) + Elements(setKeys) - Elements(delKeys)
      ensures r.Err? ==>
                var sets := AtMost(broken.value, |setKeys|); var dels := AtMost(broken.value - sets, |delKeys|);
                keys == old(keys) + Elements(setKeys[..sets]) - Elements(delKeys[..dels])
    {
      if |setKeys| == 0 && |delKeys| == 0 {
        return Ok([]);
      }
      ghost var sets := if broken.None? then |setKeys| else AtMost(broken.value, |setKeys|);
      ghost var dels := if broken.None? then |delKeys| else AtMost(broken.value - sets, |delKeys|);
      var out: seq<bool> := [];
      var done := 0;
      for i := 0 to |setKeys|
        invariant |out| == i && done == AtMost(sets, i)
        invariant keys == old(keys) + Elements(setKeys[..done])
        invariant broken.None? ==> forall j | 0 <= j < i :: out[j] <==> setKeys[j] !in old(keys) && setKeys[j] !in setKeys[..j]
      {
        var isNew := false;
        if broken.None? || done < broken.value {
          var answer := SetNX(setKeys[i], Received);
          isNew := answer.value;
          done := done + 1;
          OneMoreElement(setKeys, i);
        }
        out := out + [isNew];
      }
      ghost var set0 := keys;
      assert setKeys[..|setKeys|] == setKeys;
      for i := 0 to |delKeys|
        invariant done == sets + AtMost(dels, i)
        invariant keys == set0 - Elements(delKeys[..done - sets])
      {
        if broken.None? || done < broken.value {
          var answer := Del(delKeys[i], Received);
          done := done + 1;
          OneMoreElement(delKeys, i);
        }
      }
      assert delKeys[..|delKeys|] == delKeys;
      if broken.Some? {
        return Err(CacheFailed);
      }
      return Ok(out);
    }
  }

  function Elements(s: seq<string>): set<string> { set k | k in s }

  lemma OneMoreElement(s: seq<string>, i: nat)
    requires i < |s|
    ensures Elements(s[..i + 1]) == Elements(s[..i]) + {s[i]}
  {
    assert s[..i + 1] == s[..i] + [s[i]];
  }

  lemma PrefixElements(s: seq<string>)
    ensures forall n: nat | n <= |s| :: Elements(s[..n]) <= Elements(s)
  {
  }

  function AtMost(n: nat, limit: nat): nat { if n <= limit then n else limit }

  class Deduplicator {
    const cache: RedisCache

    constructor (cache: RedisCache)
      ensures this.cache == cache
    {
      this.cache := cache;
    }

    method IsDuplicate(a: Alert, reply: Reply) returns (r: Result<bool, DedupError>)
      modifies cache
      ensures r == if reply == Received then Ok("oncall:dedup:" + a.fingerprint in old(cache.keys)) else Err(CacheFailed)
      ensures cache.keys == if reply == NotExecuted then old(cache.keys) else old(cache.keys) + {"oncall:dedup:" + a.fingerprint}
    {
      var isNew := cache.SetNX(RedisKey(a), reply);
      if isNew.Err? {
        return Err(isNew.error);
      }
      return Ok(!isNew.value);
    }

    method Clear(a: Alert, reply: Reply) returns (r: Result<(), DedupError>)
      modifies cache
      ensures r == if reply == Received then Ok(()) else Err(CacheFailed)
      ensures cache.keys == if reply == NotExecuted then old(cache.keys) else old(cache.keys) - {"oncall:dedup:" + a.fingerprint}
    {
      r := cache.Del(RedisKey(a), reply);
    }

    /** The loop Classify replaces, with Redis up: IsDuplicate for firing alerts, Clear for resolved ones, in order. */
    method ClassifyEach(alerts: seq<Alert>) returns (dup: seq<bool>)
      modifies cache
      ensures |dup| == |alerts| && forall i | 0 <= i < |alerts| :: dup[i] == DuplicateInTurn(old(cache.keys), alerts, i)
      ensures cache.keys == KeysAfterEach(old(cache.keys), alerts)
    {
      dup := [];
      for i := 0 to |alerts|
        invariant |dup| == i && forall j | 0 <= j < i :: dup[j] == DuplicateInTurn(old(cache.keys), alerts, j)
        invariant cache.keys == KeysAfterEach(old(cache.keys), alerts[..i])
      {
        var d := false;
        if alerts[i].status.Resolved? {
          var cleared := Clear(alerts[i], Received);
        } else {
          var answer := IsDuplicate(alerts[i], Received);
          d := answer.value;
        }
        dup := dup + [d];
        assert alerts[..i + 1][..i] == alerts[..i];
      }
      assert alerts[..|alerts|] == alerts;
    }

    /** Classify: one pipeline for the whole batch. */
    method Classify(alerts: seq<Alert>, broken: Option<nat>) returns (r: Result<seq<bool>, DedupError>)
      modifies cache
      ensures r.Err? <==> broken.Some? && alerts != []
      ensures r.Ok? ==> |r.value| == |alerts|
                        && forall i | 0 <= i < |alerts| :: r.value[i] == DuplicateInBatch(old(cache.keys), alerts, i)
      ensures r.Ok? ==> cache.keys == KeysAfterBatch(old(cache.keys), alerts)
      ensures r.Ok? ==> forall i | 0 <= i < |alerts| :: r.value[i] == RepeatsFiring(old(cache.keys), alerts, i)
      ensures r.Err? ==> old(cache.keys) - KeysWith(alerts, Resolved) <= cache.keys <= old(cache.keys) + KeysWith(alerts, Firing)
    {
      if |alerts| == 0 {
        return Ok([]);
      }
      var setKeys, setIdx, delKeys := SplitBatch(alerts);
      PartedKeys(alerts, setKeys, setIdx, delKeys);
      var applied := cache.Apply(setKeys, delKeys, broken);
      if applied.Err? {
        PrefixElements(setKeys);
        PrefixElements(delKeys);
        return Err(CacheFailed);
      }
      var dup := MarkDuplicates(old(cache.keys), alerts, setKeys, setIdx, delKeys, applied.value);
      forall i | 0 <= i < |alerts| ensures dup[i] == RepeatsFiring(old(cache.keys), alerts, i) {
        BatchByFingerprint(old(cache.keys), alerts, i);
      }
      return Ok(dup);
    }
  }

  /** The first loop of Classify: firing alerts to SETNX, resolved ones to DEL. */
  method SplitBatch(alerts: seq<Alert>) returns (setKeys: seq<string>, setIdx: seq<nat>, delKeys: seq<string>)
    ensures Parted(alerts, |alerts|, setKeys, setIdx, delKeys)
  {
    setKeys, setIdx, delKeys := [], [], [];
    for i := 0 to |alerts|
      invariant Parted(alerts, i, setKeys, setIdx, delKeys)
    {
      PartOne(alerts, i, setKeys, setIdx, delKeys);
      if alerts[i].status.Resolved? {
        delKeys := delKeys + [RedisKey(alerts[i])];
        continue;
      }
      setKeys := setKeys + [RedisKey(alerts[i])];
      setIdx := setIdx + [i];
    }
  }

  /** The last loop of Classify: a key that was not newly set marks its alert. */
  method MarkDuplicates(ghost keys: set<string>, alerts: seq<Alert>, ghost setKeys: seq<string>, setIdx: seq<nat>,
                        ghost delKeys: seq<string>, isNew: seq<bool>)
    returns (dup: seq<bool>)
    requires Parted(alerts, |alerts|, setKeys, setIdx, delKeys) && |isNew| == |setKeys|
    requires forall j | 0 <= j < |setKeys| :: isNew[j] <==> setKeys[j] !in keys && setKeys[j] !in setKeys[..j]
    ensures |dup| == |alerts| && forall i | 0 <= i < |alerts| :: dup[i] == DuplicateInBatch(keys, alerts, i)
  {
    dup := seq(|alerts|, _ => false);
    for j := 0 to |isNew|
      invariant |dup| == |alerts|
      invariant forall k | 0 <= k < j :: dup[setIdx[k]] == !isNew[k]
      invariant forall k | j <= k < |isNew| :: !dup[setIdx[k]]
      invariant forall i | 0 <= i < |alerts| && dup[i] :: alerts[i].status.Firing?
    {
      if !isNew[j] {
        dup := dup[setIdx[j] := true];
      }
    }
    Answered(keys, alerts, setKeys, setIdx, delKeys, isNew, dup);
  }

  /** What the loop of Classify that parts firing from resolved has built from the first n alerts. */
  ghost predicate Parted(alerts: seq<Alert>, n: nat, setKeys: seq<string>, setIdx: seq<nat>, delKeys: seq<string>) {
    && n <= |alerts| && |setIdx| == |setKeys|
    && (forall j | 0 <= j < |setIdx| ::
          setIdx[j] < n && alerts[setIdx[j]].status.Firing? && setKeys[j] == RedisKey(alerts[setIdx[j]]))
    && (forall j, k | 0 <= j < k < |setIdx| :: setIdx[j] < setIdx[k])
    && (forall i | 0 <= i < n && alerts[i].status.Firing? :: exists j :: 0 <= j < |setIdx| && setIdx[j] == i)
    && (forall key :: key in delKeys <==> exists i :: 0 <= i < n && alerts[i].status.Resolved? && RedisKey(alerts[i]) == key)
  }

  lemma PartOne(alerts: seq<Alert>, i: nat, setKeys: seq<string>, setIdx: seq<nat>, delKeys: seq<string>)
    requires Parted(alerts, i, setKeys, setIdx, delKeys) && i < |alerts|
    ensures alerts[i].status.Resolved? ==> Parted(alerts, i + 1, setKeys, setIdx, delKeys + [RedisKey(alerts[i])])
    ensures alerts[i].status.Firing? ==> Parted(alerts, i + 1, setKeys + [RedisKey(alerts[i])], setIdx + [i], delKeys)
  {
    if alerts[i].status.Firing? {
      var idx := setIdx + [i];
      forall k | 0 <= k < i + 1 && alerts[k].status.Firing? ensures exists j :: 0 <= j < |idx| && idx[j] == k {
        if k < i {
          var j :| 0 <= j < |setIdx| && setIdx[j] == k;
          assert idx[j] == k;
        } else {
          assert idx[|setIdx|] == k;
        }
      }
    }
  }

  lemma PartedKeys(alerts: seq<Alert>, setKeys: seq<string>, setIdx: seq<nat>, delKeys: seq<string>)
    requires Parted(alerts, |alerts|, setKeys, setIdx, delKeys)
    ensures Elements(setKeys) == KeysWith(alerts, Firing)
    ensures Elements(delKeys) == KeysWith(alerts, Resolved)
    ensures alerts != [] ==> setKeys != [] || delKeys != []
  {
    forall k | k in setKeys ensures k in KeysWith(alerts, Firing) {
      var j :| 0 <= j < |setKeys| && setKeys[j] == k;
      assert alerts[setIdx[j]] in alerts;
    }
    forall k | k in KeysWith(alerts, Firing) ensures k in setKeys {
      var a :| a in alerts && a.status == Firing && RedisKey(a) == k;
      var i :| 0 <= i < |alerts| && alerts[i] == a;
      var j :| 0 <= j < |setIdx| && setIdx[j] == i;
      assert setKeys[j] == k;
    }
    forall k | k in KeysWith(alerts, Resolved) ensures k in delKeys {
      var a :| a in alerts && a.status == Resolved && RedisKey(a) == k;
      var i :| 0 <= i < |alerts| && alerts[i] == a;
    }
    if alerts != [] && alerts[0].status.Firing? {
      var j :| 0 <= j < |setIdx| && setIdx[j] == 0;
    } else if alerts != [] {
      assert RedisKey(alerts[0]) in delKeys;
    }
  }

  lemma Answered(keys: set<string>, alerts: seq<Alert>, setKeys: seq<string>, setIdx: seq<nat>, delKeys: seq<string>,
                 isNew: seq<bool>, dup: seq<bool>)
    requires Parted(alerts, |alerts|, setKeys, setIdx, delKeys) && |isNew| == |setKeys| && |dup| == |alerts|
    requires forall j | 0 <= j < |setKeys| :: isNew[j] <==> setKeys[j] !in keys && setKeys[j] !in setKeys[..j]
    requires forall k | 0 <= k < |isNew| :: dup[setIdx[k]] == !isNew[k]
    requires forall i | 0 <= i < |alerts| && dup[i] :: alerts[i].status.Firing?
    ensures forall i | 0 <= i < |alerts| :: dup[i] == DuplicateInBatch(keys, alerts, i)
  {
    forall i | 0 <= i < |alerts| ensures dup[i] == DuplicateInBatch(keys, alerts, i) {
      if alerts[i].status.Firing? {
        var j :| 0 <= j < |setIdx| && setIdx[j] == i;
        EarlierFiring(alerts, setKeys, setIdx, delKeys, j);
      }
    }
  }

  lemma EarlierFiring(alerts: seq<Alert>, setKeys: seq<string>, setIdx: seq<nat>, delKeys: seq<string>, j: nat)
    requires Parted(alerts, |alerts|, setKeys, setIdx, delKeys) && j < |setIdx|
    ensures setKeys[j] in setKeys[..j]
            <==> exists h :: 0 <= h < setIdx[j] && alerts[h].status.Firing? && Same(alerts[h], alerts[setIdx[j]])
  {
    if setKeys[j] in setKeys[..j] {
      var k :| 0 <= k < j && setKeys[..j][k] == setKeys[j];
      assert Same(alerts[setIdx[k]], alerts[setIdx[j]]);
    }
    if h :| 0 <= h < setIdx[j] && alerts[h].status.Firing? && Same(alerts[h], alerts[setIdx[j]]) {
      var k :| 0 <= k < |setIdx| && setIdx[k] == h;
      assert k < j;
      assert setKeys[..j][k] == setKeys[j];
    }
  }

  // ---- When the two forms agree ----

  /** No alert strictly between j and i has the key of alert i. */
  ghost predicate NoneBetween(alerts: seq<Alert>, j: int, i: nat)
    requires i < |alerts|
  {
    forall h | j < h < i && 0 <= h :: !Same(alerts[h], alerts[i])
  }

  /** Alert j is the last one before i with the key of alert i. */
  ghost predicate LastBefore(alerts: seq<Alert>, j: nat, i: nat)
    requires i < |alerts|
  {
    j < i && Same(alerts[j], alerts[i]) && NoneBetween(alerts, j, i)
  }

  /**
   * A firing alert i comes straight after a resolved one of its key, and the batch forgets the order: the key was set
   * before the resolution, or no later resolution of it comes.
   */
  ghost predicate OrderMatters(keys: set<string>, alerts: seq<Alert>, j: nat, i: nat)
    requires i < |alerts|
  {
    && LastBefore(alerts, j, i) && alerts[j].status.Resolved? && alerts[i].status.Firing?
    && (RedisKey(alerts[i]) in keys
        || (exists h :: 0 <= h < j && alerts[h].status.Firing? && Same(alerts[h], alerts[i]))
        || (forall h | i < h < |alerts| && Same(alerts[h], alerts[i]) :: alerts[h].status.Firing?))
  }

  ghost predicate Reordered(keys: set<string>, alerts: seq<Alert>) {
    exists j, i :: 0 <= j < i < |alerts| && OrderMatters(keys, alerts, j, i)
  }

  ghost predicate SameOutcome(keys: set<string>, alerts: seq<Alert>) {
    && (forall i | 0 <= i < |alerts| :: DuplicateInTurn(keys, alerts, i) == DuplicateInBatch(keys, alerts, i))
    && KeysAfterEach(keys, alerts) == KeysAfterBatch(keys, alerts)
  }

  /** Alert l is the last one with this key. */
  ghost predicate LastOf(alerts: seq<Alert>, key: string, l: int) {
    0 <= l < |alerts| && RedisKey(alerts[l]) == key && forall h | l < h < |alerts| :: RedisKey(alerts[h]) != key
  }

  ghost predicate Absent(alerts: seq<Alert>, key: string) {
    forall h | 0 <= h < |alerts| :: RedisKey(alerts[h]) != key
  }

  lemma {:induction false} LastOrAbsent(alerts: seq<Alert>, key: string, n: nat) returns (l: int)
    requires n <= |alerts| && forall h | n <= h < |alerts| :: RedisKey(alerts[h]) != key
    ensures if l < 0 then Absent(alerts, key) else LastOf(alerts, key, l)
    decreases n
  {
    if n == 0 {
      l := -1;
    } else if RedisKey(alerts[n - 1]) == key {
      l := n - 1;
    } else {
      l := LastOrAbsent(alerts, key, n - 1);
    }
  }

  lemma {:induction false} AbsentKey(keys: set<string>, alerts: seq<Alert>, key: string)
    requires Absent(alerts, key)
    ensures key in KeysAfterEach(keys, alerts) <==> key in keys
  {
    if alerts != [] {
      AbsentKey(keys, alerts[..|alerts| - 1], key);
    }
  }

  /** After alerts handled one by one, the last alert of a key decides whether it is present. */
  lemma {:induction false} LastDecides(keys: set<string>, alerts: seq<Alert>, key: string, l: int)
    requires LastOf(alerts, key, l)
    ensures key in KeysAfterEach(keys, alerts) <==> alerts[l].status.Firing?
  {
    var n := |alerts| - 1;
    if l < n {
      assert LastOf(alerts[..n], key, l);
      LastDecides(keys, alerts[..n], key, l);
    }
  }

  /** The alert before i with its key, if there is one. */
  lemma {:induction false} FindLast(alerts: seq<Alert>, i: nat, n: nat) returns (j: int)
    requires n <= i < |alerts|
    requires forall h | n <= h < i :: !Same(alerts[h], alerts[i])
    ensures -1 <= j < n && NoneBetween(alerts, j, i) && (j >= 0 ==> Same(alerts[j], alerts[i]))
    decreases n
  {
    if n == 0 {
      j := -1;
    } else if Same(alerts[n - 1], alerts[i]) {
      j := n - 1;
    } else {
      j := FindLast(alerts, i, n - 1);
    }
  }

  /** In turn, a firing alert is a duplicate when the last alert of its key fired, or there was none and the key was there. */
  lemma InTurnByLast(keys: set<string>, alerts: seq<Alert>, i: nat, j: int)
    requires i < |alerts| && alerts[i].status.Firing?
    requires -1 <= j < i && NoneBetween(alerts, j, i) && (j >= 0 ==> Same(alerts[j], alerts[i]))
    ensures DuplicateInTurn(keys, alerts, i) <==> if j >= 0 then alerts[j].status.Firing? else RedisKey(alerts[i]) in keys
  {
    var before := alerts[..i];
    if j >= 0 {
      assert LastOf(before, RedisKey(alerts[i]), j) by {
        assert forall h | j < h < i :: before[h] == alerts[h] && !Same(alerts[h], alerts[i]);
      }
      LastDecides(keys, before, RedisKey(alerts[i]), j);
    } else {
      assert Absent(before, RedisKey(alerts[i])) by {
        assert forall h | 0 <= h < i :: before[h] == alerts[h] && !Same(alerts[h], alerts[i]);
      }
      AbsentKey(keys, before, RedisKey(alerts[i]));
    }
  }

  /** One by one, an alert is answered by the last alert of its fingerprint before it, or by the remembered fingerprints. */
  lemma InTurnByFingerprint(keys: set<string>, alerts: seq<Alert>, i: nat)
    requires i < |alerts|
    ensures DuplicateInTurn(keys, alerts, i) <==>
            alerts[i].status.Firing?
            && if forall h | 0 <= h < i :: alerts[h].fingerprint != alerts[i].fingerprint
               then "oncall:dedup:" + alerts[i].fingerprint in keys
               else exists j :: 0 <= j < i && alerts[j].fingerprint == alerts[i].fingerprint && alerts[j].status.Firing?
                                && forall h | j < h < i :: alerts[h].fingerprint != alerts[i].fingerprint
  {
    forall h | 0 <= h < i ensures Same(alerts[h], alerts[i]) <==> alerts[h].fingerprint == alerts[i].fingerprint {
      SameFingerprint(alerts[h], alerts[i]);
    }
    if alerts[i].status.Firing? {
      var j := FindLast(alerts, i, i);
      InTurnByLast(keys, alerts, i, j);
    }
  }

  /** A difference in the answer for alert i shows that the order mattered there. */
  lemma AnswerDiffers(keys: set<string>, alerts: seq<Alert>, i: nat)
    requires i < |alerts| && DuplicateInTurn(keys, alerts, i) != DuplicateInBatch(keys, alerts, i)
    ensures Reordered(keys, alerts)
  {
    var j := FindLast(alerts, i, i);
    InTurnByLast(keys, alerts, i, j);
    assert forall h | 0 <= h < i && Same(alerts[h], alerts[i]) :: h <= j;
    assert j >= 0 && alerts[j].status.Resolved?;
    assert OrderMatters(keys, alerts, j, i);
  }

  /** A batch leaves a fingerprint remembered when it was, or fired in the batch, and was not resolved in it. */
  lemma BatchKeysByFingerprint(keys: set<string>, alerts: seq<Alert>, fingerprint: string)
    ensures "oncall:dedup:" + fingerprint in KeysAfterBatch(keys, alerts) <==>
            ("oncall:dedup:" + fingerprint in keys
             || exists i :: 0 <= i < |alerts| && alerts[i].status.Firing? && alerts[i].fingerprint == fingerprint)
            && forall i | 0 <= i < |alerts| && alerts[i].fingerprint == fingerprint :: alerts[i].status.Firing?
  {
    var key := "oncall:dedup:" + fingerprint;
    BatchKeyMeaning(keys, alerts, key);
    forall i | 0 <= i < |alerts| ensures RedisKey(alerts[i]) == key <==> alerts[i].fingerprint == fingerprint {
      SameFingerprint(alerts[i], alerts[i].(fingerprint := fingerprint));
    }
  }

  lemma BatchKeyMeaning(keys: set<string>, alerts: seq<Alert>, key: string)
    ensures key in KeysAfterBatch(keys, alerts) <==>
            (key in keys || exists i :: 0 <= i < |alerts| && alerts[i].status.Firing? && RedisKey(alerts[i]) == key)
            && forall i | 0 <= i < |alerts| && RedisKey(alerts[i]) == key :: alerts[i].status.Firing?
  {
    if key in KeysWith(alerts, Firing) {
      var a :| a in alerts && a.status == Firing && RedisKey(a) == key;
      var i :| 0 <= i < |alerts| && alerts[i] == a;
    }
    if key in KeysWith(alerts, Resolved) {
      var a :| a in alerts && a.status == Resolved && RedisKey(a) == key;
      var i :| 0 <= i < |alerts| && alerts[i] == a;
    }
    forall i | 0 <= i < |alerts| && RedisKey(alerts[i]) == key ensures key in KeysWith(alerts, alerts[i].status) {
      assert alerts[i] in alerts;
    }
  }

  /** The first alert of its key after the last resolution of that key. */
  lemma {:induction false} FirstAfterResolution(alerts: seq<Alert>, key: string, n: nat, last: nat) returns (j: nat, i: nat)
    requires n < last < |alerts| && RedisKey(alerts[n]) == key && alerts[n].status.Resolved?
    requires RedisKey(alerts[last]) == key && alerts[last].status.Firing?
    ensures j < i < |alerts| && LastBefore(alerts, j, i) && RedisKey(alerts[i]) == key
    ensures alerts[j].status.Resolved? && alerts[i].status.Firing?
    ensures forall h | i < h <= last && RedisKey(alerts[h]) == key :: alerts[h].status.Firing?
    decreases last - n
  {
    if h :| n < h < last && RedisKey(alerts[h]) == key && alerts[h].status.Resolved? {
      j, i := FirstAfterResolution(alerts, key, h, last);
    } else {
      j, i := n, last;
      if m :| n < m < last && RedisKey(alerts[m]) == key {
        j, i := FirstAfterResolution(alerts, key, n, m);
        assert forall h | n < h < last && RedisKey(alerts[h]) == key :: alerts[h].status.Firing?;
        assert j == n || n < j;
      }
    }
  }

  /** The batch keeps no key the loop would have dropped. */
  lemma BatchKeysKept(keys: set<string>, alerts: seq<Alert>, key: string)
    requires key in KeysAfterBatch(keys, alerts)
    ensures key in KeysAfterEach(keys, alerts)
  {
    BatchKeyMeaning(keys, alerts, key);
    var l := LastOrAbsent(alerts, key, |alerts|);
    if l < 0 {
      AbsentKey(keys, alerts, key);
    } else {
      LastDecides(keys, alerts, key, l);
    }
  }

  /** A key the batch drops and the loop keeps shows that the order mattered for the key's last resolution. */
  lemma KeysDiffer(keys: set<string>, alerts: seq<Alert>, key: string)
    requires key in KeysAfterEach(keys, alerts) && key !in KeysAfterBatch(keys, alerts)
    ensures Reordered(keys, alerts)
  {
    BatchKeyMeaning(keys, alerts, key);
    var l := LastOrAbsent(alerts, key, |alerts|);
    if l < 0 {
      AbsentKey(keys, alerts, key);
    } else {
      LastDecides(keys, alerts, key, l);
      if alerts[l].status.Firing? {
        var n :| 0 <= n < |alerts| && RedisKey(alerts[n]) == key && alerts[n].status.Resolved?;
        var j, i := FirstAfterResolution(alerts, key, n, l);
        assert OrderMatters(keys, alerts, j, i);
      }
    }
  }

  /** Where the order matters, the batch's outcome is not that of the alerts one by one. */
  lemma OrderMattersShows(keys: set<string>, alerts: seq<Alert>, j: nat, i: nat)
    requires j < i < |alerts| && OrderMatters(keys, alerts, j, i)
    ensures !SameOutcome(keys, alerts)
  {
    var key := RedisKey(alerts[i]);
    InTurnByLast(keys, alerts, i, j);
    if !DuplicateInBatch(keys, alerts, i) {
      BatchKeyMeaning(keys, alerts, key);
      var l := LastOrAbsent(alerts, key, |alerts|);
      assert l >= i;
      assert l > i ==> Same(alerts[l], alerts[i]);
      LastDecides(keys, alerts, key, l);
    }
  }

  /** Exactly when the pipelined batch does what the alert-by-alert loop did: same suppressions, same keys left. */
  lemma BatchRefinesLoop(keys: set<string>, alerts: seq<Alert>)
    ensures SameOutcome(keys, alerts) <==> !Reordered(keys, alerts)
  {
    if Reordered(keys, alerts) {
      var j, i :| 0 <= j < i < |alerts| && OrderMatters(keys, alerts, j, i);
      OrderMattersShows(keys, alerts, j, i);
    } else {
      forall i | 0 <= i < |alerts| ensures DuplicateInTurn(keys, alerts, i) == DuplicateInBatch(keys, alerts, i) {
        if DuplicateInTurn(keys, alerts, i) != DuplicateInBatch(keys, alerts, i) {
          AnswerDiffers(keys, alerts, i);
        }
      }
      forall key ensures key in KeysAfterEach(keys, alerts) <==> key in KeysAfterBatch(keys, alerts) {
        if key in KeysAfterBatch(keys, alerts) {
          BatchKeysKept(keys, alerts, key);
        } else if key in KeysAfterEach(keys, alerts) {
          KeysDiffer(keys, alerts, key);
        }
      }
    }
  }

  /** In particular the two agree when no firing alert follows a resolved one of the same fingerprint. */
  lemma AgreeWithoutRefiring(keys: set<string>, alerts: seq<Alert>)
    requires forall j, i | 0 <= j < i < |alerts| && alerts[j].fingerprint == alerts[i].fingerprint ::
               !(alerts[j].status.Resolved? && alerts[i].status.Firing?)
    ensures SameOutcome(keys, alerts)
  {
    forall j, i | 0 <= j < i < |alerts| && OrderMatters(keys, alerts, j, i) ensures false {
      SameFingerprint(alerts[j], alerts[i]);
    }
    BatchRefinesLoop(keys, alerts);
  }

  /** They differ on the shortest flapping batch: a known alert resolves and fires again, and the batch swallows the new firing. */
  lemma FlappingSwallowed(resolved: Alert, firing: Alert)
    requires resolved.status.Resolved? && firing == resolved.(status := Firing)
    ensures var keys := {RedisKey(firing)};
            !DuplicateInTurn(keys, [resolved, firing], 1) && DuplicateInBatch(keys, [resolved, firing], 1)
  {
    var keys := {RedisKey(firing)};
    var alerts := [resolved, firing];
    InTurnByLast(keys, alerts, 1, 0);
  }
}
