/**
 * The one-time-code store behind checkout e-mail verification (lib/otp-store.ts).
 *
 * The store is a map from lower-cased e-mail address to an entry. `Date.now()`
 * is the parameter `now` (milliseconds) and the value drawn by
 * `crypto.randomInt(100000, 999999)` is the parameter `draw`.
 *
 * The pure functions `CreateStep`, `VerifyStep`, `DeleteStep` and `Unexpired`
 * are the specification of the class `OTPStore`, whose methods change its
 * `store` field step by step as the source does. The lemmas at the end follow a
 * code through any sequence of store operations.
 */
module OtpStore {
  import opened Wrappers
  import opened JsStrings

  /** A code lives ten minutes. */
  const OtpLifetimeMs: nat := 10 * 60 * 1000
  /** At most this many comparisons of a submitted code per issued code. */
  const MaxAttempts: nat := 3
  /** The bounds handed to `crypto.randomInt`; the upper one is exclusive. */
  const CodeLow: nat := 100000
  const CodeHigh: nat := 999999

  datatype OtpEntry = OtpEntry(
    email: string,
    otp: string,
    createdAt: nat,
    expiresAt: nat,
    verified: bool,
    cartHash: string,
    attempts: nat)

  type Store = map<string, OtpEntry>

  datatype VerifyError = NotFound | Expired | AlreadyUsed | CartModified | TooManyAttempts | InvalidOtp

  datatype VerifyResult = Verified | Rejected(error: VerifyError)

  datatype VerifyOutcome = VerifyOutcome(result: VerifyResult, store: Store)

  /** The `error` text `verify` returns for each failure. */
  function ErrorMessage(e: VerifyError): string {
    match e
    case NotFound => "OTP not found or expired"
    case Expired => "OTP expired"
    case AlreadyUsed => "OTP already used"
    case CartModified => "Cart was modified. Please request a new verification code."
    case TooManyAttempts => "Too many failed attempts. Please request a new code."
    case InvalidOtp => "Invalid OTP"
  }

  /** `randomInt(100000, 999999).toString()`: always six decimal digits, reading back as the draw. */
  function CodeFor(draw: nat): (otp: string)
    requires CodeLow <= draw < CodeHigh
    ensures |otp| == 6
    ensures forall i :: 0 <= i < |otp| ==> IsDigit(otp[i])
    ensures DigitsValue(otp) == draw
  {
    assert Pow10(5) == CodeLow && Pow10(6) == 1000000;
    DecimalLength(draw, 6);
    DecimalRoundTrip(draw);
    Decimal(draw)
  }

  /** The entry `create` stores for a new code. */
  function NewEntry(email: string, otp: string, cartHash: string, now: nat): OtpEntry {
    OtpEntry(ToLower(email), otp, now, now + OtpLifetimeMs, false, cartHash, 0)
  }

  /** `create`: the new entry replaces whatever was stored under the lower-cased address. */
  function CreateStep(store: Store, email: string, otp: string, cartHash: string, now: nat): (r: Store)
    ensures r.Keys == store.Keys + {ToLower(email)}
    ensures r[ToLower(email)] == NewEntry(email, otp, cartHash, now)
    ensures forall k | k in store && k != ToLower(email) :: r[k] == store[k]
  {
    store[ToLower(email) := NewEntry(email, otp, cartHash, now)]
  }

  /** Whether a `verify` call for `key` gets as far as comparing the submitted code. */
  predicate ReachesComparison(store: Store, key: string, cartHash: string, now: nat) {
    && key in store
    && now <= store[key].expiresAt
    && !store[key].verified
    && store[key].cartHash == cartHash
    && store[key].attempts < MaxAttempts
  }

  /** `verify`: missing, expired (deleted), already used, cart changed, too many
      attempts (deleted), and only then count the attempt and compare the code. */
  function VerifyStep(store: Store, email: string, otp: string, cartHash: string, now: nat): (out: VerifyOutcome)
    ensures var key := ToLower(email);
      && (out.result == Verified <==> ReachesComparison(store, key, cartHash, now) && store[key].otp == otp)
      && (ReachesComparison(store, key, cartHash, now) ==>
            out.store == store[key := store[key].(attempts := store[key].attempts + 1,
                                                  verified := store[key].otp == otp)])
      && (!ReachesComparison(store, key, cartHash, now) ==>
            out.store == store || out.store == store - {key})
  {
    var key := ToLower(email);
    if key !in store then VerifyOutcome(Rejected(NotFound), store)
    else
      var entry := store[key];
      if now > entry.expiresAt then VerifyOutcome(Rejected(Expired), store - {key})
      else if entry.verified then VerifyOutcome(Rejected(AlreadyUsed), store)
      else if entry.cartHash != cartHash then VerifyOutcome(Rejected(CartModified), store)
      else if entry.attempts >= MaxAttempts then VerifyOutcome(Rejected(TooManyAttempts), store - {key})
      else
        var counted := entry.(attempts := entry.attempts + 1);
        if entry.otp != otp then VerifyOutcome(Rejected(InvalidOtp), store[key := counted])
        else VerifyOutcome(Verified, store[key := counted.(verified := true)])
  }

  /** `isVerified`: a used code counts until (and including) its expiry instant. */
  predicate IsVerifiedIn(store: Store, email: string, now: nat) {
    var key := ToLower(email);
    key in store && store[key].verified && now <= store[key].expiresAt
  }

  /** `getCartHash`: the bound cart hash, for verified entries only (null otherwise). */
  function CartHashIn(store: Store, email: string): (h: Option<string>)
    ensures h.Some? <==> ToLower(email) in store && store[ToLower(email)].verified
    ensures h.Some? ==> h.value == store[ToLower(email)].cartHash
  {
    var key := ToLower(email);
    if key in store && store[key].verified then Some(store[key].cartHash) else None
  }

  /** `delete` */
  function DeleteStep(store: Store, email: string): (r: Store)
    ensures r.Keys == store.Keys - {ToLower(email)}
    ensures forall k | k in r :: r[k] == store[k]
  {
    store - {ToLower(email)}
  }

  /** `cleanup`: exactly the entries whose expiry has passed are gone; the rest are untouched. */
  function Unexpired(store: Store, now: nat): (s: Store)
    ensures forall k :: k in s <==> k in store && now <= store[k].expiresAt
    ensures forall k | k in s :: s[k] == store[k]
  {
    map k | k in store && now <= store[k].expiresAt :: store[k]
  }

  class OTPStore {
    var store: Store

    constructor ()
      ensures store == map[]
    {
      store := map[];
    }

    /** Stores a fresh code for `email` bound to `cartHash` and returns it. */
    method Create(email: string, cartHash: string, now: nat, draw: nat) returns (otp: string)
      requires CodeLow <= draw < CodeHigh
      modifies this
      ensures otp == CodeFor(draw)
      ensures store == CreateStep(old(store), email, otp, cartHash, now)
    {
      otp := CodeFor(draw);
      var key := ToLower(email);
      store := store[key := OtpEntry(key, otp, now, now + OtpLifetimeMs, false, cartHash, 0)];
    }

    method Verify(email: string, otp: string, cartHash: string, now: nat) returns (result: VerifyResult)
      modifies this
      ensures VerifyOutcome(result, store) == VerifyStep(old(store), email, otp, cartHash, now)
    {
      var key := ToLower(email);
      if key !in store {
        return Rejected(NotFound);
      }
      var entry := store[key];
      if now > entry.expiresAt {
        store := store - {key};
        return Rejected(Expired);
      }
      if entry.verified {
        return Rejected(AlreadyUsed);
      }
      if entry.cartHash != cartHash {
        return Rejected(CartModified);
      }
      if entry.attempts >= MaxAttempts {
        store := store - {key};
        return Rejected(TooManyAttempts);
      }
      entry := entry.(attempts := entry.attempts + 1);
      store := store[key := entry];
      if entry.otp != otp {
        return Rejected(InvalidOtp);
      }
      entry := entry.(verified := true);
      store := store[key := entry];
      result := Verified;
    }

    method IsVerified(email: string, now: nat) returns (verified: bool)
      ensures verified == IsVerifiedIn(store, email, now)
    {
      var key := ToLower(email);
      verified := key in store && store[key].verified && now <= store[key].expiresAt;
    }

    method Delete(email: string)
      modifies this
      ensures store == DeleteStep(old(store), email)
    {
      store := store - {ToLower(email)};
    }

    /** Walks the stored addresses and deletes each entry whose expiry has passed. */
    method Cleanup(now: nat)
      modifies this
      ensures store == Unexpired(old(store), now)
    {
      var pending := store.Keys;
      while pending != {}
        invariant pending <= old(store).Keys
        invariant forall k :: k in store <==> k in old(store) && (k in pending || now <= old(store)[k].expiresAt)
        invariant forall k | k in store :: store[k] == old(store)[k]
        decreases pending
      {
        var key :| key in pending;
        if now > store[key].expiresAt {
          store := store - {key};
        }
        pending := pending - {key};
      }
    }

    method GetCartHash(email: string) returns (hash: Option<string>)
      ensures hash == CartHashIn(store, email)
    {
      var key := ToLower(email);
      if key in store && store[key].verified {
        hash := Some(store[key].cartHash);
      } else {
        hash := None;
      }
    }
  }

  // ------------------------------------------------------------------ one call

  /** The checks of `verify` run in a fixed order, and the first failing one decides. */
  lemma VerifyCheckOrder(store: Store, email: string, otp: string, cartHash: string, now: nat)
    ensures var key := ToLower(email); var out := VerifyStep(store, email, otp, cartHash, now);
      && (key !in store ==> out == VerifyOutcome(Rejected(NotFound), store))
      && (key in store && now > store[key].expiresAt ==>
            out == VerifyOutcome(Rejected(Expired), store - {key}))
      && (key in store && now <= store[key].expiresAt && store[key].verified ==>
            out == VerifyOutcome(Rejected(AlreadyUsed), store))
      && (key in store && now <= store[key].expiresAt && !store[key].verified
          && store[key].cartHash != cartHash ==>
            out == VerifyOutcome(Rejected(CartModified), store))
      && (key in store && now <= store[key].expiresAt && !store[key].verified
          && store[key].cartHash == cartHash && store[key].attempts >= MaxAttempts ==>
            out == VerifyOutcome(Rejected(TooManyAttempts), store - {key}))
      && (ReachesComparison(store, key, cartHash, now) && store[key].otp != otp ==>
            out.result == Rejected(InvalidOtp))
  {
  }

  /** A code just created verifies with itself, for the same cart, up to and including its expiry instant. */
  lemma FreshCodeVerifies(store: Store, email: string, draw: nat, cartHash: string, created: nat, now: nat, asTyped: string)
    requires CodeLow <= draw < CodeHigh
    requires created <= now <= created + OtpLifetimeMs
    requires ToLower(asTyped) == ToLower(email)
    ensures var s := CreateStep(store, email, CodeFor(draw), cartHash, created);
      && VerifyStep(s, asTyped, CodeFor(draw), cartHash, now).result == Verified
      && IsVerifiedIn(VerifyStep(s, asTyped, CodeFor(draw), cartHash, now).store, email, now)
      && CartHashIn(VerifyStep(s, asTyped, CodeFor(draw), cartHash, now).store, email) == Some(cartHash)
  {
  }

  /** Once verified, a code is never verified again: the next call is turned away as used. */
  lemma UsedCodeStaysUsed(store: Store, email: string, otp: string, cartHash: string, now: nat)
    requires ToLower(email) in store && store[ToLower(email)].verified
    requires now <= store[ToLower(email)].expiresAt
    ensures VerifyStep(store, email, otp, cartHash, now) == VerifyOutcome(Rejected(AlreadyUsed), store)
  {
  }

  // ------------------------------------------------------------------ many calls

  /** The operations the rest of the system performs on the store. */
  datatype StoreOp =
    | CreateOp(email: string, otp: string, cartHash: string, now: nat)
    | VerifyOp(email: string, otp: string, cartHash: string, now: nat)
    | DeleteOp(email: string)
    | CleanupOp(now: nat)

  function Apply(store: Store, op: StoreOp): Store {
    match op
    case CreateOp(e, o, h, t) => CreateStep(store, e, o, h, t)
    case VerifyOp(e, o, h, t) => VerifyStep(store, e, o, h, t).store
    case DeleteOp(e) => DeleteStep(store, e)
    case CleanupOp(t) => Unexpired(store, t)
  }

  /** No operation in `ops` issues a new code for `key`. */
  predicate NoCreateFor(ops: seq<StoreOp>, key: string) {
    forall i :: 0 <= i < |ops| && ops[i].CreateOp? ==> ToLower(ops[i].email) != key
  }

  /** How many verify calls in `ops` for `key` get as far as comparing the code. */
  function Comparisons(store: Store, ops: seq<StoreOp>, key: string): nat
    decreases |ops|
  {
    if ops == [] then 0
    else
      var op := ops[0];
      var here := if op.VerifyOp? && ToLower(op.email) == key && ReachesComparison(store, key, op.cartHash, op.now)
                  then 1 else 0;
      here + Comparisons(Apply(store, op), ops[1..], key)
  }

  /** How many verify calls in `ops` for `key` succeed. */
  function Successes(store: Store, ops: seq<StoreOp>, key: string): nat
    decreases |ops|
  {
    if ops == [] then 0
    else
      var op := ops[0];
      var here := if op.VerifyOp? && ToLower(op.email) == key
                     && VerifyStep(store, op.email, op.otp, op.cartHash, op.now).result == Verified
                  then 1 else 0;
      here + Successes(Apply(store, op), ops[1..], key)
  }

  /** An operation that does not create a code for `key` never raises its attempt count by more than the comparison it makes. */
  lemma ApplyKeepsAttempts(store: Store, op: StoreOp, key: string)
    requires !(op.CreateOp? && ToLower(op.email) == key)
    ensures var s := Apply(store, op);
      && (key in s ==> key in store)
      && (key in s ==>
            s[key].attempts == store[key].attempts
              + (if op.VerifyOp? && ToLower(op.email) == key && ReachesComparison(store, key, op.cartHash, op.now) then 1 else 0))
      && (key in s && store[key].verified ==> s[key].verified)
  {
  }

  /** At most three comparisons happen per issued code, whatever else the store goes through,
      as long as no new code is issued for the same address. */
  lemma {:induction false} AtMostThreeComparisons(store: Store, ops: seq<StoreOp>, key: string)
    requires NoCreateFor(ops, key)
    requires key in store ==> store[key].attempts <= MaxAttempts
    ensures Comparisons(store, ops, key) <= if key in store then MaxAttempts - store[key].attempts else 0
    decreases |ops|
  {
    if ops != [] {
      var s := Apply(store, ops[0]);
      ApplyKeepsAttempts(store, ops[0], key);
      assert NoCreateFor(ops[1..], key) by {
        forall i | 0 <= i < |ops[1..]| && ops[1..][i].CreateOp? ensures ToLower(ops[1..][i].email) != key {
          assert ops[1..][i] == ops[i + 1];
        }
      }
      AtMostThreeComparisons(s, ops[1..], key);
    }
  }

  /** A newly issued code is compared at most three times. */
  lemma NewCodeComparedAtMostThrice(store: Store, email: string, otp: string, cartHash: string, now: nat, ops: seq<StoreOp>)
    requires NoCreateFor(ops, ToLower(email))
    ensures Comparisons(CreateStep(store, email, otp, cartHash, now), ops, ToLower(email)) <= MaxAttempts
  {
    AtMostThreeComparisons(CreateStep(store, email, otp, cartHash, now), ops, ToLower(email));
  }

  /** A code succeeds at most once: never again once verified, at most once before. */
  lemma {:induction false} AtMostOneSuccess(store: Store, ops: seq<StoreOp>, key: string)
    requires NoCreateFor(ops, key)
    ensures Successes(store, ops, key) <= if key in store && !store[key].verified then 1 else 0
    decreases |ops|
  {
    if ops != [] {
      var op := ops[0];
      var s := Apply(store, op);
      ApplyKeepsAttempts(store, op, key);
      assert NoCreateFor(ops[1..], key) by {
        forall i | 0 <= i < |ops[1..]| && ops[1..][i].CreateOp? ensures ToLower(ops[1..][i].email) != key {
          assert ops[1..][i] == ops[i + 1];
        }
      }
      AtMostOneSuccess(s, ops[1..], key);
      if op.VerifyOp? && ToLower(op.email) == key && VerifyStep(store, op.email, op.otp, op.cartHash, op.now).result == Verified {
        assert key in s && s[key].verified;
      }
    }
  }

  /** The fourth call that gets past the cart check finds three attempts used, is refused even with the
      right code, and removes the entry. */
  lemma FourthAttemptRefused(store: Store, email: string, otp: string, cartHash: string, now: nat)
    requires var key := ToLower(email);
      key in store && now <= store[key].expiresAt && !store[key].verified
      && store[key].cartHash == cartHash && store[key].attempts == MaxAttempts
    ensures VerifyStep(store, email, otp, cartHash, now)
              == VerifyOutcome(Rejected(TooManyAttempts), store - {ToLower(email)})
  {
  }

  /** A wrong code costs exactly one attempt and changes nothing else. */
  lemma WrongCodeCostsOneAttempt(store: Store, email: string, otp: string, cartHash: string, now: nat)
    requires ReachesComparison(store, ToLower(email), cartHash, now)
    requires store[ToLower(email)].otp != otp
    ensures var key := ToLower(email); var out := VerifyStep(store, email, otp, cartHash, now);
      && out.result == Rejected(InvalidOtp)
      && out.store.Keys == store.Keys
      && out.store[key] == store[key].(attempts := store[key].attempts + 1)
      && forall k | k in store && k != key :: out.store[k] == store[k]
  {
  }
}
