/** The ephemeral key-value store the services share: every entry carries
    the instant (in milliseconds) after which it is gone. An entry written
    at `now` with time-to-live `ttl` is readable up to and including
    `now + ttl`. */
module TtlStore {
  import opened Wrappers
  import opened Enums

  /** The OTP record kept under an `otp:` key. */
  datatype OtpData = OtpData(
    otp: string,
    attempts: int,
    createdAt: nat,
    expiresAt: nat,
    purpose: OtpPurpose,
    used: bool)

  /** The resend tracker kept under an `otp_resend:` key. */
  datatype ResendTracker = ResendTracker(count: int, firstSentAt: nat, lastSentAt: nat)

  /** What the services store: OTP records, resend trackers and plain text
      (the block marker, the SMS copy of a code, the blacklist marker). */
  datatype Value = Challenge(data: OtpData) | Tracker(tracker: ResendTracker) | Text(text: string)

  datatype Slot = Slot(value: Value, deadline: nat)

  type Store = map<string, Slot>

  /** The key exists and has not expired. */
  predicate Live(st: Store, key: string, now: nat)
  {
    key in st && now <= st[key].deadline
  }

  /** `get`: the value of a live key, `null` otherwise. */
  function Get(st: Store, key: string, now: nat): (r: Option<Value>)
    ensures r.Some? <==> Live(st, key, now)
    ensures r.Some? ==> r.value == st[key].value
  {
    if Live(st, key, now) then Some(st[key].value) else None
  }

  /** `set(key, value, ttl)` with a positive time-to-live (the store refuses
      any other). */
  function Put(st: Store, key: string, v: Value, ttl: nat, now: nat): (r: Store)
    requires ttl > 0
    ensures key in r && r[key] == Slot(v, now + ttl)
    ensures forall k :: k != key ==> (k in r <==> k in st) && (k in st ==> r[k] == st[k])
  {
    st[key := Slot(v, now + ttl)]
  }

  /** `delete(key)` */
  function Delete(st: Store, key: string): (r: Store)
    ensures key !in r
    ensures forall k :: k != key ==> (k in r <==> k in st) && (k in st ==> r[k] == st[k])
  {
    st - {key}
  }

  /** A written value is read back until its deadline, and not after. */
  lemma GetAfterPut(st: Store, key: string, v: Value, ttl: nat, now: nat, later: nat)
    requires ttl > 0 && now <= later
    ensures Get(Put(st, key, v, ttl, now), key, later) == if later <= now + ttl then Some(v) else None
  {
  }

  /** Writing or deleting one key leaves every other key's reads alone. */
  lemma OtherKeysUntouched(st: Store, key: string, other: string, v: Value, ttl: nat, now: nat, at: nat)
    requires ttl > 0 && other != key
    ensures Get(Put(st, key, v, ttl, now), other, at) == Get(st, other, at)
    ensures Get(Delete(st, key), other, at) == Get(st, other, at)
  {
  }

  /** The store, shared by reference between the services. */
  class Redis {
    var entries: Store

    constructor ()
      ensures entries == map[]
    {
      entries := map[];
    }

    method Set(key: string, v: Value, ttl: nat, now: nat)
      requires ttl > 0
      modifies this
      ensures entries == Put(old(entries), key, v, ttl, now)
    {
      entries := Put(entries, key, v, ttl, now);
    }

    method Remove(key: string)
      modifies this
      ensures entries == Delete(old(entries), key)
    {
      entries := Delete(entries, key);
    }
  }
}
