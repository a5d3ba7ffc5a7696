/**
 * API keys with rotation, overlap and revocation
 * (src/api-keys/api-keys.service.ts, `verify`, `rotate`, `revoke`).
 *
 * A hash is represented by the secret it was made from: comparison is exact.
 * Each operation is one step at one point in time, in milliseconds.
 */
module ApiKeys {

  import opened Options

  type Secret = string

  const MAX_OVERLAP := 3600000  // one hour

  datatype Key = Key(
    id: string,
    userId: string,
    keyHash: Secret,
    previousKeyHash: Option<Secret>,
    overlapUntil: Option<int>,
    revokedAt: Option<int>,
    expiresAt: Option<int>)

  datatype Result = Accepted(id: string) | Expired | Invalid

  datatype RotateResult = Rotated(secret: Secret) | NotFound | AlreadyRevoked

  // ------------------------------------------------------------- operations

  /** Drops an overlap whose deadline has passed. */
  function Cleared(k: Key, now: int): Key
  {
    if k.previousKeyHash.Some? && k.overlapUntil.Some? && k.overlapUntil.value <= now
    then k.(previousKeyHash := None, overlapUntil := None) else k
  }

  predicate Matches(k: Key, raw: Secret, now: int)
  {
    || k.keyHash == raw
    || (k.previousKeyHash == Some(raw) && k.overlapUntil.Some? && k.overlapUntil.value > now)
  }

  function Verdict(k: Key, now: int): Result
  {
    if k.expiresAt.Some? && k.expiresAt.value < now then Expired else Accepted(k.id)
  }

  predicate Live(k: Key, raw: Secret, now: int)
  {
    k.revokedAt.None? && Matches(k, raw, now)
  }

  /** The place of the first key from `i` on that is not revoked and matches, or the length if none does. */
  function FirstLive(keys: seq<Key>, raw: Secret, now: int, i: nat): (n: nat)
    requires i <= |keys|
    ensures i <= n <= |keys|
    ensures n < |keys| ==> Live(keys[n], raw, now)
    ensures forall j :: i <= j < n ==> !Live(keys[j], raw, now)
    decreases |keys| - i
  {
    if i == |keys| || Live(keys[i], raw, now) then i else FirstLive(keys, raw, now, i + 1)
  }

  /** Expired overlaps of the first `n` keys are dropped; revoked keys are skipped. */
  function Tidied(keys: seq<Key>, n: nat, now: int): (r: seq<Key>)
    ensures |r| == |keys|
    ensures forall j :: 0 <= j < |keys| ==>
              r[j] == if j < n && keys[j].revokedAt.None? then Cleared(keys[j], now) else keys[j]
  {
    seq(|keys|, j requires 0 <= j < |keys| =>
      if j < n && keys[j].revokedAt.None? then Cleared(keys[j], now) else keys[j])
  }

  function VerifyResult(keys: seq<Key>, raw: Secret, now: int): Result
  {
    var n := FirstLive(keys, raw, now, 0);
    if n < |keys| then Verdict(keys[n], now) else Invalid
  }

  function VerifyKeys(keys: seq<Key>, raw: Secret, now: int): (r: seq<Key>)
    ensures |r| == |keys|
  {
    Tidied(keys, FirstLive(keys, raw, now, 0) + 1, now)
  }

  function Min(a: int, b: int): int
  {
    if a <= b then a else b
  }

  function Max(a: int, b: int): int
  {
    if a >= b then a else b
  }

  /** A requested overlap that is not a finite number counts as zero. */
  function Bounded(overlap: Option<int>): (ms: int)
    ensures 0 <= ms <= MAX_OVERLAP
  {
    match overlap
    case None => 0
    case Some(requested) => Max(0, Min(requested, MAX_OVERLAP))
  }

  function Distance(a: int, b: int): nat
  {
    if a >= b then a - b else b - a
  }

  /** Among all overlaps of at most an hour, the granted one is the only one nearest to the request. */
  lemma GrantedOverlapIsNearest(requested: int, other: int)
    requires 0 <= other <= 3600000 && other != Bounded(Some(requested))
    ensures Distance(Bounded(Some(requested)), requested) < Distance(other, requested)
    ensures 0 <= Bounded(Some(requested)) <= 3600000 && Bounded(None) == 0
  {
  }

  function RotateKey(k: Key, userId: string, id: string, overlap: Option<int>, secret: Secret, now: int): Key
  {
    if k.id == id && k.userId == userId && k.revokedAt.None?
    then k.(previousKeyHash := Some(k.keyHash), keyHash := secret, overlapUntil := Some(now + Bounded(overlap)))
    else k
  }

  function RevokeKey(k: Key, userId: string, id: string, now: int): Key
  {
    if k.id == id && k.userId == userId
    then k.(revokedAt := Some(now), previousKeyHash := None, overlapUntil := None)
    else k
  }

  function RotateAll(keys: seq<Key>, userId: string, id: string, overlap: Option<int>, secret: Secret, now: int)
    : (r: seq<Key>)
    ensures |r| == |keys|
    ensures forall i :: 0 <= i < |keys| ==> r[i] == RotateKey(keys[i], userId, id, overlap, secret, now)
  {
    seq(|keys|, i requires 0 <= i < |keys| => RotateKey(keys[i], userId, id, overlap, secret, now))
  }

  function RevokeAll(keys: seq<Key>, userId: string, id: string, now: int): (r: seq<Key>)
    ensures |r| == |keys|
    ensures forall i :: 0 <= i < |keys| ==> r[i] == RevokeKey(keys[i], userId, id, now)
  {
    seq(|keys|, i requires 0 <= i < |keys| => RevokeKey(keys[i], userId, id, now))
  }

  /** Two keys that differ at most in their secrets, overlap and revocation. */
  ghost predicate SameKey(a: Key, b: Key)
  {
    a.id == b.id && a.userId == b.userId && a.expiresAt == b.expiresAt
  }

  /** A verification drops exactly the overlaps that have ended, of the unrevoked keys up to the one that matches. */
  lemma VerifyTidies(keys: seq<Key>, raw: Secret, now: int, j: nat)
    requires j < |keys|
    ensures var k, r, n := keys[j], VerifyKeys(keys, raw, now)[j], FirstLive(keys, raw, now, 0);
            var ended := k.previousKeyHash.Some? && k.overlapUntil.Some? && now >= k.overlapUntil.value;
            && SameKey(r, k) && r.keyHash == k.keyHash && r.revokedAt == k.revokedAt
            && if j <= n && k.revokedAt.None? && ended then r.previousKeyHash.None? && r.overlapUntil.None?
               else r == k
  {
  }

  /** What a rotation or a revocation leaves of every key. */
  lemma RotationLeaves(keys: seq<Key>, userId: string, id: string, overlap: Option<int>, secret: Secret, now: int,
                       j: nat)
    requires j < |keys|
    ensures var k, r := keys[j], RotateAll(keys, userId, id, overlap, secret, now)[j];
            && SameKey(r, k) && r.revokedAt == k.revokedAt
            && if k.id == id && k.userId == userId && k.revokedAt.None?
               then r.keyHash == secret && r.previousKeyHash == Some(k.keyHash) && r.overlapUntil.Some? &&
                    now <= r.overlapUntil.value <= now + 3600000
               else r == k
  {
  }

  lemma RevocationLeaves(keys: seq<Key>, userId: string, id: string, now: int, j: nat)
    requires j < |keys|
    ensures var k, r := keys[j], RevokeAll(keys, userId, id, now)[j];
            && SameKey(r, k) && r.keyHash == k.keyHash
            && if k.id == id && k.userId == userId
               then r.revokedAt == Some(now) && r.previousKeyHash.None? && r.overlapUntil.None?
               else r == k
  {
  }

  // ------------------------------------------------------------ the service

  ghost predicate DistinctIds(keys: seq<Key>)
  {
    forall i, j :: 0 <= i < j < |keys| ==> keys[i].id != keys[j].id
  }

  class ApiKeysService {
    var keys: seq<Key>

    constructor (keys: seq<Key>)
      ensures this.keys == keys
    {
      this.keys := keys;
    }

    /** The first live key that matches decides; keys looked at on the way are tidied up. */
    method Verify(raw: Secret, now: int) returns (result: Result)
      modifies this
      ensures result == VerifyResult(old(keys), raw, now)
      ensures keys == VerifyKeys(old(keys), raw, now)
    {
      var found := keys;
      for i := 0 to |found|
        invariant keys == Tidied(found, i, now)
        invariant FirstLive(found, raw, now, 0) == FirstLive(found, raw, now, i)
      {
        var k := found[i];
        if k.revokedAt.Some? {
          assert Tidied(found, i + 1, now) == Tidied(found, i, now);
          continue;
        }
        k := Cleared(k, now);
        keys := keys[i := k];
        assert keys == Tidied(found, i + 1, now);
        if Matches(k, raw, now) {
          return Verdict(k, now);
        }
      }
      assert Tidied(found, |found|, now) == Tidied(found, |found| + 1, now);
      result := Invalid;
    }

    method FindKey(userId: string, id: string) returns (at: Option<nat>)
      ensures at.Some? ==> at.value < |keys| && keys[at.value].id == id && keys[at.value].userId == userId
      ensures at.None? ==> forall i :: 0 <= i < |keys| ==> !(keys[i].id == id && keys[i].userId == userId)
    {
      for i := 0 to |keys|
        invariant forall j :: 0 <= j < i ==> !(keys[j].id == id && keys[j].userId == userId)
      {
        if keys[i].id == id && keys[i].userId == userId {
          return Some(i);
        }
      }
      at := None;
    }

    method Rotate(userId: string, id: string, overlap: Option<int>, secret: Secret, now: int)
      returns (result: RotateResult)
      requires DistinctIds(keys)
      modifies this
      ensures keys == RotateAll(old(keys), userId, id, overlap, secret, now)
      ensures result == NotFound <==>
                forall i :: 0 <= i < |keys| ==> !(old(keys)[i].id == id && old(keys)[i].userId == userId)
      ensures result == AlreadyRevoked <==>
                exists i :: 0 <= i < |keys| && old(keys)[i].id == id && old(keys)[i].userId == userId &&
                            old(keys)[i].revokedAt.Some?
      ensures result == Rotated(secret) <==>
                exists i :: 0 <= i < |keys| && old(keys)[i].id == id && old(keys)[i].userId == userId &&
                            old(keys)[i].revokedAt.None?
    {
      var at := FindKey(userId, id);
      if at.None? {
        return NotFound;
      }
      var i := at.value;
      if keys[i].revokedAt.Some? {
        return AlreadyRevoked;
      }
      keys := keys[i := keys[i].(previousKeyHash := Some(keys[i].keyHash), keyHash := secret,
                                 overlapUntil := Some(now + Bounded(overlap)))];
      result := Rotated(secret);
    }

    method Revoke(userId: string, id: string, now: int)
      requires DistinctIds(keys)
      modifies this
      ensures keys == RevokeAll(old(keys), userId, id, now)
    {
      var at := FindKey(userId, id);
      if at.Some? {
        var i := at.value;
        keys := keys[i := keys[i].(revokedAt := Some(now), previousKeyHash := None, overlapUntil := None)];
      }
    }
  }

  // ------------------------------------------------------- the stateless view

  datatype Op =
    | VerifyOp(raw: Secret, at: int)
    | RotateOp(userId: string, id: string, overlap: Option<int>, secret: Secret, at: int)
    | RevokeOp(userId: string, id: string, at: int)

  function Step(keys: seq<Key>, op: Op): (r: seq<Key>)
    ensures |r| == |keys|
  {
    match op
    case VerifyOp(raw, at) => VerifyKeys(keys, raw, at)
    case RotateOp(userId, id, overlap, secret, at) => RotateAll(keys, userId, id, overlap, secret, at)
    case RevokeOp(userId, id, at) => RevokeAll(keys, userId, id, at)
  }

  function Run(keys: seq<Key>, ops: seq<Op>): (r: seq<Key>)
    ensures |r| == |keys|
  {
    if ops == [] then keys else Step(Run(keys, ops[..|ops| - 1]), ops[|ops| - 1])
  }

  /**
   * What a reader of the history knows about one key: the secrets issued for
   * it in turn, when each but the newest stops being honoured, and whether
   * the key was revoked. Verification leaves no trace in it.
   */
  datatype Life = Life(secrets: seq<Secret>, deadlines: seq<int>, revoked: bool)

  function LifeStep(k: Key, life: Life, op: Op): Life
  {
    match op
    case VerifyOp(_, _) => life
    case RotateOp(userId, id, overlap, secret, at) =>
      if k.id == id && k.userId == userId && !life.revoked
      then Life(life.secrets + [secret], life.deadlines + [at + Bounded(overlap)], false) else life
    case RevokeOp(userId, id, at) =>
      if k.id == id && k.userId == userId then life.(revoked := true) else life
  }

  function LifeOf(k: Key, ops: seq<Op>): Life
  {
    if ops == [] then Life([k.keyHash], [], false)
    else LifeStep(k, LifeOf(k, ops[..|ops| - 1]), ops[|ops| - 1])
  }

  /** The newest secret, or the one before it until its deadline; nothing once revoked. */
  predicate Honours(life: Life, raw: Secret, now: int)
  {
    && !life.revoked
    && exists n :: 0 <= n < |life.secrets| && life.secrets[n] == raw &&
         (n == |life.secrets| - 1 ||
          (n == |life.secrets| - 2 && n < |life.deadlines| && now < life.deadlines[n]))
  }

  // ------------------------------------------- the stored row and its history

  /** A key as created: no rotation, no revocation yet. */
  ghost predicate Unused(k: Key)
  {
    k.previousKeyHash.None? && k.overlapUntil.None? && k.revokedAt.None?
  }

  ghost predicate WellFormed(life: Life)
  {
    |life.secrets| == |life.deadlines| + 1
  }

  /** The overlap is stored, or it was cleared after its deadline. */
  ghost predicate OverlapAgrees(k: Key, life: Life, now: int)
    requires WellFormed(life)
  {
    var n := |life.deadlines|;
    if n == 0 then k.previousKeyHash.None? && k.overlapUntil.None?
    else
      || (k.previousKeyHash == Some(life.secrets[n - 1]) && k.overlapUntil == Some(life.deadlines[n - 1]))
      || (k.previousKeyHash.None? && k.overlapUntil.None? && life.deadlines[n - 1] <= now)
  }

  ghost predicate Agrees(k: Key, start: Key, life: Life, now: int)
  {
    && WellFormed(life)
    && k.id == start.id && k.userId == start.userId && k.expiresAt == start.expiresAt
    && k.keyHash == life.secrets[|life.secrets| - 1]
    && (k.revokedAt.Some? <==> life.revoked)
    && (!life.revoked ==> OverlapAgrees(k, life, now))
  }

  lemma ClearedAgrees(k: Key, start: Key, life: Life, before: int, now: int)
    requires Agrees(k, start, life, before) && before <= now && k.revokedAt.None?
    ensures Agrees(Cleared(k, now), start, life, now)
  {
  }

  lemma StepAgrees(k: Key, start: Key, life: Life, op: Op, before: int)
    requires Agrees(k, start, life, before) && before <= op.at
    requires op.RotateOp? || op.RevokeOp?
    ensures var k' := if op.RotateOp? then RotateKey(k, op.userId, op.id, op.overlap, op.secret, op.at)
                      else RevokeKey(k, op.userId, op.id, op.at);
            Agrees(k', start, LifeStep(start, life, op), op.at)
  {
  }

  ghost predicate Ordered(ops: seq<Op>)
  {
    forall i, j :: 0 <= i < j < |ops| ==> ops[i].at <= ops[j].at
  }

  /** Along every run, each stored key agrees with its history. */
  lemma {:induction false} RunAgrees(keys: seq<Key>, ops: seq<Op>, i: nat, now: int)
    requires i < |keys| && Unused(keys[i]) && Ordered(ops)
    requires ops != [] ==> ops[|ops| - 1].at <= now
    ensures Agrees(Run(keys, ops)[i], keys[i], LifeOf(keys[i], ops), now)
  {
    if ops != [] {
      var front, op := ops[..|ops| - 1], ops[|ops| - 1];
      RunAgrees(keys, front, i, op.at);
      var k, life := Run(keys, front)[i], LifeOf(keys[i], front);
      if op.VerifyOp? {
        if k.revokedAt.None? {
          ClearedAgrees(k, keys[i], life, op.at, op.at);
        }
      } else {
        StepAgrees(k, keys[i], life, op, op.at);
      }
    }
  }

  lemma LiveIffHonoured(k: Key, start: Key, life: Life, raw: Secret, now: int)
    requires Agrees(k, start, life, now)
    ensures Live(k, raw, now) <==> Honours(life, raw, now)
  {
    var n := |life.secrets| - 1;
    if Live(k, raw, now) {
      if k.keyHash == raw {
        assert life.secrets[n] == raw;
      } else {
        assert life.secrets[n - 1] == raw;
      }
    }
  }

  function Lives(keys: seq<Key>, ops: seq<Op>): (lives: seq<Life>)
    ensures |lives| == |keys| && forall i :: 0 <= i < |keys| ==> lives[i] == LifeOf(keys[i], ops)
  {
    seq(|keys|, i requires 0 <= i < |keys| => LifeOf(keys[i], ops))
  }

  /** The first key in the table whose history honours the secret, or the length if there is none. */
  function FirstHonoured(lives: seq<Life>, raw: Secret, now: int, i: nat): (n: nat)
    requires i <= |lives|
    ensures i <= n <= |lives|
    ensures n < |lives| ==> Honours(lives[n], raw, now)
    ensures forall j :: i <= j < n ==> !Honours(lives[j], raw, now)
    decreases |lives| - i
  {
    if i == |lives| || Honours(lives[i], raw, now) then i else FirstHonoured(lives, raw, now, i + 1)
  }

  /** The decision a reader of the history would take; expiry is looked at last. */
  function HistoryResult(keys: seq<Key>, lives: seq<Life>, raw: Secret, now: int): Result
    requires |lives| == |keys|
  {
    var n := FirstHonoured(lives, raw, now, 0);
    if n < |keys| then Verdict(keys[n], now) else Invalid
  }

  /** Acceptance depends on the history alone, for every run of rotations, revocations and verifications. */
  lemma VerifyMatchesHistory(keys: seq<Key>, ops: seq<Op>, raw: Secret, now: int)
    requires (forall i :: 0 <= i < |keys| ==> Unused(keys[i])) && Ordered(ops)
    requires ops != [] ==> ops[|ops| - 1].at <= now
    ensures VerifyResult(Run(keys, ops), raw, now) == HistoryResult(keys, Lives(keys, ops), raw, now)
  {
    var stored, lives := Run(keys, ops), Lives(keys, ops);
    forall i | 0 <= i < |keys|
      ensures Live(stored[i], raw, now) <==> Honours(lives[i], raw, now)
      ensures Verdict(stored[i], now) == Verdict(keys[i], now)
    {
      RunAgrees(keys, ops, i, now);
      LiveIffHonoured(stored[i], keys[i], lives[i], raw, now);
    }
    assert FirstLive(stored, raw, now, 0) == FirstHonoured(lives, raw, now, 0);
  }

  /** With secrets never issued twice, a key is accepted exactly while its own history honours the secret. */
  lemma AcceptedIffOwnHistory(keys: seq<Key>, ops: seq<Op>, raw: Secret, now: int, i: nat)
    requires (forall j :: 0 <= j < |keys| ==> Unused(keys[j])) && Ordered(ops) && DistinctIds(keys)
    requires ops != [] ==> ops[|ops| - 1].at <= now
    requires i < |keys| && raw in LifeOf(keys[i], ops).secrets
    requires forall j :: 0 <= j < |keys| && j != i ==> raw !in LifeOf(keys[j], ops).secrets
    ensures var result, honoured := VerifyResult(Run(keys, ops), raw, now), Honours(LifeOf(keys[i], ops), raw, now);
            var expired := keys[i].expiresAt.Some? && keys[i].expiresAt.value < now;
            && (result == Accepted(keys[i].id) <==> honoured && !expired)
            && (result == Expired <==> honoured && expired)
            && (result == Invalid <==> !honoured)
  {
    VerifyMatchesHistory(keys, ops, raw, now);
    var lives := Lives(keys, ops);
    assert forall j :: 0 <= j < |keys| && Honours(lives[j], raw, now) ==> j == i;
  }

  // ---------------------------------------------------- what the history says

  function WithoutVerify(ops: seq<Op>): seq<Op>
  {
    if ops == [] then []
    else
      var front, op := WithoutVerify(ops[..|ops| - 1]), ops[|ops| - 1];
      if op.VerifyOp? then front else front + [op]
  }

  lemma {:induction false} LifeIgnoresVerify(k: Key, ops: seq<Op>)
    ensures LifeOf(k, WithoutVerify(ops)) == LifeOf(k, ops)
  {
    if ops != [] {
      var front, op := ops[..|ops| - 1], ops[|ops| - 1];
      LifeIgnoresVerify(k, front);
      if !op.VerifyOp? {
        var quiet := WithoutVerify(front);
        assert (quiet + [op])[..|quiet|] == quiet;
      }
    }
  }

  lemma {:induction false} WithoutVerifyOrdered(ops: seq<Op>, now: int)
    requires Ordered(ops) && forall i :: 0 <= i < |ops| ==> ops[i].at <= now
    ensures Ordered(WithoutVerify(ops)) && forall i :: 0 <= i < |WithoutVerify(ops)| ==> WithoutVerify(ops)[i].at <= now
  {
    if ops != [] {
      WithoutVerifyOrdered(ops[..|ops| - 1], ops[|ops| - 1].at);
    }
  }

  /** The lazy clearing done by earlier verifications never changes a later decision. */
  lemma ClearingIsInvisible(keys: seq<Key>, ops: seq<Op>, raw: Secret, now: int)
    requires (forall i :: 0 <= i < |keys| ==> Unused(keys[i])) && Ordered(ops)
    requires ops != [] ==> ops[|ops| - 1].at <= now
    ensures VerifyResult(Run(keys, ops), raw, now) == VerifyResult(Run(keys, WithoutVerify(ops)), raw, now)
  {
    var quiet := WithoutVerify(ops);
    WithoutVerifyOrdered(ops, now);
    forall i | 0 <= i < |keys|
      ensures LifeOf(keys[i], quiet) == LifeOf(keys[i], ops)
    {
      LifeIgnoresVerify(keys[i], ops);
    }
    assert Lives(keys, quiet) == Lives(keys, ops);
    VerifyMatchesHistory(keys, ops, raw, now);
    VerifyMatchesHistory(keys, quiet, raw, now);
  }

  ghost predicate Applies(op: Op, k: Key)
  {
    !op.VerifyOp? && op.userId == k.userId && op.id == k.id
  }

  /** Once its owner has revoked a key, no secret of it is honoured again, whatever follows. */
  lemma {:induction false} RevocationIsFinal(k: Key, ops: seq<Op>, n: nat, raw: Secret, now: int)
    requires n < |ops| && ops[n].RevokeOp? && Applies(ops[n], k)
    ensures LifeOf(k, ops).revoked && !Honours(LifeOf(k, ops), raw, now)
  {
    var front := ops[..|ops| - 1];
    if n < |front| {
      RevocationIsFinal(k, front, n, raw, now);
    }
  }

  lemma {:induction false} LifeIsWellFormed(k: Key, ops: seq<Op>)
    ensures WellFormed(LifeOf(k, ops))
  {
    if ops != [] {
      LifeIsWellFormed(k, ops[..|ops| - 1]);
    }
  }

  /** Each superseded secret dies at a deadline set by the rotation that replaced it, at most one hour later. */
  lemma {:induction false} DeadlineWithinAnHour(k: Key, ops: seq<Op>, n: nat) returns (j: nat)
    requires n < |LifeOf(k, ops).deadlines|
    ensures j < |ops| && ops[j].RotateOp? && Applies(ops[j], k)
    ensures n + 1 < |LifeOf(k, ops).secrets| && ops[j].secret == LifeOf(k, ops).secrets[n + 1]
    ensures LifeOf(k, ops).deadlines[n] == ops[j].at + Bounded(ops[j].overlap)
    ensures ops[j].at <= LifeOf(k, ops).deadlines[n] <= ops[j].at + 3600000
  {
    LifeIsWellFormed(k, ops);
    var front := ops[..|ops| - 1];
    LifeIsWellFormed(k, front);
    if n < |LifeOf(k, front).deadlines| {
      j := DeadlineWithinAnHour(k, front, n);
    } else {
      j := |ops| - 1;
    }
  }

  /** A secret issued `n`-th is honoured while newest, or once superseded until its deadline; never later. */
  lemma HonouredByAge(k: Key, ops: seq<Op>, n: nat, now: int)
    requires n < |LifeOf(k, ops).secrets|
    requires var s := LifeOf(k, ops).secrets; forall i, j :: 0 <= i < j < |s| ==> s[i] != s[j]
    ensures var life := LifeOf(k, ops);
            var later := |life.secrets| - 1 - n;
            && (later == 0 ==> (Honours(life, life.secrets[n], now) <==> !life.revoked))
            && (later == 1 ==> n < |life.deadlines|)
            && (later == 1 ==> (Honours(life, life.secrets[n], now) <==> !life.revoked && now < life.deadlines[n]))
            && (later >= 2 ==> !Honours(life, life.secrets[n], now))
  {
    LifeIsWellFormed(k, ops);
    var life := LifeOf(k, ops);
    assert forall i :: 0 <= i < |life.secrets| && life.secrets[i] == life.secrets[n] ==> i == n;
  }
}
