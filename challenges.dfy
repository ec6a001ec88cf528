/** The login challenge store's values: pending codes keyed by user id with
    their expiry, the lazy purge of expired codes, and the failed-login
    counter with its alert threshold. Times are integer milliseconds. */
module Challenges {
  import opened Users
  import opened Text

  /** Failed comparisons at which every further failure raises an alert. */
  const AUTH_FAIL_THRESHOLD: nat := 10

  const MS_PER_MINUTE: nat := 60000

  /** A pending challenge: the code words and the instant they expire. */
  datatype Auth = Auth(code: string, expires: int)

  /** The stored `fails` record. */
  datatype FailCount = FailCount(count: nat, since: int)

  type Pending = map<UserId, Auth>

  /** `genAuthCode(minutes)`: "adjective noun", expiring `minutes` from `now`.
      The two words come from the word generator. */
  function GenAuthCode(minutes: nat, now: int, adjective: string, noun: string): Auth {
    Auth(adjective + " " + noun, now + minutes * MS_PER_MINUTE)
  }

  /** The entries that are not expired at `now` (an entry expires when its
      expiry is strictly before `now`). */
  function Unexpired(pending: Pending, now: int): Pending {
    map uid | uid in pending && pending[uid].expires >= now :: pending[uid]
  }

  /** `removeExpiredAuthCodes(pending)`: deletes, one key at a time, every
      entry whose expiry is before `now`. */
  method RemoveExpiredAuthCodes(pending: Pending, now: int) returns (kept: Pending)
    ensures forall uid :: uid in kept <==> uid in pending && pending[uid].expires >= now
    ensures forall uid :: uid in kept ==> kept[uid] == pending[uid]
    ensures kept == Unexpired(pending, now)
  {
    kept := pending;
    var todo := pending.Keys;
    while todo != {}
      invariant todo <= pending.Keys
      invariant forall uid :: uid in kept <==> uid in pending && (uid in todo || pending[uid].expires >= now)
      invariant forall uid :: uid in kept ==> kept[uid] == pending[uid]
      decreases |todo|
    {
      var uid :| uid in todo;
      if kept[uid].expires < now {
        kept := kept - {uid};
      }
      todo := todo - {uid};
    }
  }

  /** Purging never adds or alters a code, and a second purge at the same
      instant changes nothing. */
  lemma PurgeIdempotent(pending: Pending, now: int)
    ensures Unexpired(pending, now).Keys <= pending.Keys
    ensures forall uid :: uid in Unexpired(pending, now) ==> Unexpired(pending, now)[uid] == pending[uid]
    ensures Unexpired(Unexpired(pending, now), now) == Unexpired(pending, now)
  {
  }

  /** A purge at a later instant subsumes an earlier one. */
  lemma PurgeLater(pending: Pending, t1: int, t2: int)
    requires t1 <= t2
    ensures Unexpired(Unexpired(pending, t1), t2) == Unexpired(pending, t2)
  {
  }

  /** A code issued for `minutes` survives every purge up to its expiry,
      inclusive, and no purge after it. */
  lemma CodeLifetime(p: Pending, uid: UserId, minutes: nat, now: int, adjective: string, noun: string, t: int)
    ensures var a := GenAuthCode(minutes, now, adjective, noun);
            && (uid in Unexpired(p[uid := a], t) <==> t <= now + minutes * MS_PER_MINUTE)
            && (t <= now + minutes * MS_PER_MINUTE ==> Unexpired(p[uid := a], t)[uid].code == adjective + " " + noun)
  {
  }

  /** Issuing a code for one user leaves the other users' entries as they were. */
  lemma IssueTouchesOnlyTarget(p: Pending, uid: UserId, a: Auth)
    ensures forall other :: other != uid ==> (other in p[uid := a] <==> other in p)
    ensures forall other :: other != uid && other in p ==> p[uid := a][other] == p[other]
  {
  }

  /** A consumed code cannot be used again: once the entry is deleted after a
      purge, no later purge brings it back. */
  lemma ConsumedIsGone(p: Pending, uid: UserId, t1: int, t2: int)
    ensures uid !in Unexpired(Unexpired(p, t1) - {uid}, t2)
  {
  }

  /** The counter after one more failure; an unset counter starts at
      `{count: 0, since: now}`. */
  function Bumped(fails: Results.Option<FailCount>, now: int): (f: FailCount)
    ensures fails.Some? ==> f.count == fails.value.count + 1 && f.since == fails.value.since
    ensures fails.None? ==> f == FailCount(1, now)
  {
    var base := if fails.Some? then fails.value else FailCount(0, now);
    base.(count := base.count + 1)
  }

  /** The alert fires at every count at or past the threshold. */
  predicate AlertFires(f: FailCount) {
    f.count >= AUTH_FAIL_THRESHOLD
  }

  /** The counter after `k` consecutive failures from `f`. */
  function BumpedTimes(f: FailCount, k: nat, now: int): FailCount
    decreases k
  {
    if k == 0 then f else Bumped(Results.Some(BumpedTimes(f, k - 1, now)), now)
  }

  /** How many of `k` consecutive failures after a reset raise an alert. */
  function AlertsAfterReset(k: nat, now: int): nat
    decreases k
  {
    if k == 0 then 0
    else AlertsAfterReset(k - 1, now) + (if AlertFires(BumpedTimes(FailCount(0, now), k, now)) then 1 else 0)
  }

  /** Each failure raises the count by exactly one and keeps `since`. */
  lemma {:induction false} BumpedTimesCount(f: FailCount, k: nat, now: int)
    ensures BumpedTimes(f, k, now) == FailCount(f.count + k, f.since)
  {
    if k > 0 { BumpedTimesCount(f, k - 1, now); }
  }

  /** After a reset, the first nine failures are silent and every failure
      from the tenth on raises an alert (the alert is not edge-triggered). */
  lemma {:induction false} AlertsCount(k: nat, now: int)
    ensures AlertsAfterReset(k, now) == if k < AUTH_FAIL_THRESHOLD then 0 else k - AUTH_FAIL_THRESHOLD + 1
  {
    if k > 0 {
      AlertsCount(k - 1, now);
      BumpedTimesCount(FailCount(0, now), k, now);
    }
  }

  /** The alert note; `ago` stands for the relative rendering of `since`. */
  function AlertNote(f: FailCount, ago: string): string {
    "SECURITY ALERT!\n\n" + Decimal(f.count) + " failed login attempts (last successful login was " + ago + ")"
  }

  /** The message that delivers the code words to the login conversation. */
  function CodeText(a: Auth): string {
    "codewords: " + a.code + "\n(valid for one minute)"
  }
}
