/** How long a fetched document may be served (sections 4.2 and 4.2.3 of RFC 9111). */
module Freshness {
  import opened Prelude
  import opened Text
  import opened CacheControl
  import opened SuccessCache

  /** The Date field as read at the response time. */
  datatype DateField = NoDate | BadDate | At(ms: int)

  /** The header fields of a response that decide about caching; a missing field is None. */
  datatype CacheView = CacheView(
    valid: bool,
    cacheControl: Option<seq<string>>,
    vary: Option<seq<string>>,
    age: Option<seq<string>>,
    date: DateField)

  /** A finished fetch: the document, its fields, and the clock before and after. */
  datatype Fetch = Fetch(document: string, view: Option<CacheView>, t0: Option<int>, t1: Option<int>)

  predicate HasVaryStar(values: Option<seq<string>>) {
    values.Some? && exists i, j ::
      0 <= i < |values.value| && 0 <= j < |Split(values.value[i], ',')| && Trim(Split(values.value[i], ',')[j]) == "*"
  }

  /** Seconds; None models null. */
  function ParseAge(values: Option<seq<string>>): Option<nat> {
    if values.None? then Some(0)
    else if |values.value| != 1 || !IsDecimal(values.value[0]) then None
    else if DecimalValue(values.value[0]) > MAX_SAFE_INTEGER then None
    else Some(DecimalValue(values.value[0]))
  }

  /** A printed list of field names contains the star exactly if one of its members is a star. */
  lemma VaryStarIsAMember(names: seq<string>)
    requires names != [] && forall i :: 0 <= i < |names| ==> ',' !in names[i]
    ensures HasVaryStar(Some([Join(names, ",")])) <==> exists i :: 0 <= i < |names| && Trim(names[i]) == "*"
  {
    SplitJoin(names, ',');
    assert [Join(names, ",")][0] == Join(names, ",");
  }

  /** A printed age is read back, within the safe integers. */
  lemma AgeReadsBack(n: nat)
    ensures ParseAge(Some([Decimal(n)])) == if n <= MAX_SAFE_INTEGER then Some(n) else None
  {
    DecimalReadsBack(n);
  }

  /** An age is read exactly from one field that is a run of digits within the safe integers; a missing field is zero. */
  lemma AgeExactly(values: Option<seq<string>>, n: nat)
    ensures ParseAge(values) == Some(n) <==>
      if values.None? then n == 0
      else |values.value| == 1 && values.value[0] != "" && (forall i :: 0 <= i < |values.value[0]| ==> '0' <= values.value[0][i] <= '9')
           && n == DecimalValue(values.value[0]) && n <= 0x1F_FFFF_FFFF_FFFF
  {
  }

  /** Any occurrence of the field may hold the star. */
  lemma VaryStarInAnyField(values: seq<string>)
    ensures HasVaryStar(Some(values)) <==> exists k :: 0 <= k < |values| && HasVaryStar(Some([values[k]]))
  {
    if HasVaryStar(Some(values)) {
      var i, j :| 0 <= i < |values| && 0 <= j < |Split(values[i], ',')| && Trim(Split(values[i], ',')[j]) == "*";
      assert [values[i]][0] == values[i];
    }
    if k :| 0 <= k < |values| && HasVaryStar(Some([values[k]])) {
      var i, j :| 0 <= i < |[values[k]]| && 0 <= j < |Split([values[k]][i], ',')| && Trim(Split([values[k]][i], ',')[j]) == "*";
      assert Trim(Split(values[k], ',')[j]) == "*";
    }
  }

  /** `computeCacheExpiryMs`; None models null. */
  function ComputeCacheExpiryMs(f: Fetch, capSeconds: nat): Option<int> {
    if f.view.None? || !f.view.value.valid then None
    else
      var view := f.view.value;
      var maxAge := ParsedMaxAge(view.cacheControl);
      if maxAge.None? || HasVaryStar(view.vary) then None
      else
        var age := ParseAge(view.age);
        if age.None? || f.t0.None? || f.t1.None? then None
        else
          var responseDelay := f.t1.value - f.t0.value;
          if responseDelay < 0 || view.date.BadDate? then None
          else
            var apparentAge := if view.date.NoDate? then 0 else Max(0, f.t1.value - view.date.ms);
            var correctedInitialAge := Max(apparentAge, age.value * 1000 + responseDelay);
            var ttlMs := Min(maxAge.value, capSeconds) * 1000 - correctedInitialAge;
            if ttlMs <= 0 then None else Some(f.t1.value + ttlMs)
  }

  // ------------------------------------------------------------ the standard's terms

  /** The response says enough to be stored. */
  predicate Storable(f: Fetch) {
    && f.t0.Some? && f.t1.Some? && f.t0.value <= f.t1.value
    && f.view.Some? && f.view.value.valid
    && ParsedMaxAge(f.view.value.cacheControl).Some?
    && ParseAge(f.view.value.age).Some?
    && !f.view.value.date.BadDate?
    && !HasVaryStar(f.view.value.vary)
  }

  /** corrected_initial_age of section 4.2.3, in milliseconds. */
  function CorrectedInitialAge(f: Fetch): int
    requires Storable(f)
  {
    var correctedAgeValue := ParseAge(f.view.value.age).value * 1000 + (f.t1.value - f.t0.value);
    if f.view.value.date.At? then Max(f.t1.value - f.view.value.date.ms, correctedAgeValue) else correctedAgeValue
  }

  /** freshness_lifetime, capped, in milliseconds. */
  function Lifetime(f: Fetch, capSeconds: nat): int
    requires Storable(f)
  {
    1000 * Min(ParsedMaxAge(f.view.value.cacheControl).value, capSeconds)
  }

  /** Received by time `n` and then still younger than its lifetime. */
  predicate FreshAt(f: Fetch, capSeconds: nat, n: int) {
    Storable(f) && f.t1.value <= n && CorrectedInitialAge(f) + (n - f.t1.value) < Lifetime(f, capSeconds)
  }

  /** From its receipt on, a response is before its expiry exactly while it is fresh. */
  lemma ExpiryIsEndOfFreshness(f: Fetch, capSeconds: nat, n: int)
    requires f.t1.Some? && f.t1.value <= n
    ensures FreshAt(f, capSeconds, n) <==>
      ComputeCacheExpiryMs(f, capSeconds).Some? && n < ComputeCacheExpiryMs(f, capSeconds).value
  {
    hide ParsedMaxAge, ParseAge, HasVaryStar;
  }

  /** No response is stored that is not fresh on receipt, and every one that is fresh is. */
  lemma StoredExactlyWhenFreshOnReceipt(f: Fetch, capSeconds: nat)
    ensures ComputeCacheExpiryMs(f, capSeconds).Some? <==> f.t1.Some? && FreshAt(f, capSeconds, f.t1.value)
  {
    hide ParsedMaxAge, ParseAge, HasVaryStar;
  }

  // ------------------------------------------------------------ composed with the cache

  /** Each entry carries its own expiry and was received no later than the last reading. */
  ghost predicate Honest(c: Cache<Fetch>, capSeconds: nat) {
    forall e :: e in c.entries ==>
      && ComputeCacheExpiryMs(e.value, capSeconds) == Some(e.expiresAtMs)
      && e.value.t1.Some? && c.lastObserved.Some? && e.value.t1.value <= c.lastObserved.value
  }

  /** Stores a fetch the way #fetchAndCache does: not at all, not even a clock reading, when it has no expiry. */
  function Store(c: Cache<Fetch>, max: int, key: string, f: Fetch, capSeconds: nat): Cache<Fetch> {
    var expiry := ComputeCacheExpiryMs(f, capSeconds);
    if expiry.None? then c else DoSet(c, max, key, f, expiry, f.t1)
  }

  lemma LookupKeepsHonest(c: Cache<Fetch>, capSeconds: nat, key: string, now: Option<int>)
    requires Honest(c, capSeconds) && UniqueKeys(c.entries)
    ensures Honest(DoGet(c, key, now).0, capSeconds)
  {
    hide ComputeCacheExpiryMs, UniqueKeys, Has;
    WithoutKeeps(c.entries, key);
    var rest, found := Without(c.entries, key), Find(c.entries, key);
    forall e | e in rest ensures e in c.entries { }
    if found.Some? {
      forall e | e in rest + [found.value] ensures e in c.entries { assert e in rest || e == found.value; }
    }
  }

  lemma StoreKeepsHonest(c: Cache<Fetch>, max: int, capSeconds: nat, key: string, f: Fetch)
    requires Honest(c, capSeconds) && UniqueKeys(c.entries)
    ensures Honest(Store(c, max, key, f, capSeconds), capSeconds)
  {
    StoredExactlyWhenFreshOnReceipt(f, capSeconds);
    hide ComputeCacheExpiryMs, UniqueKeys, Has, FreshAt, Newest;
    WithoutKeeps(c.entries, key);
    var expiry := ComputeCacheExpiryMs(f, capSeconds);
    if expiry.Some? {
      var rest, n := Without(c.entries, key), if max <= 0 then 0 else max - 1;
      NewestArePart(rest, n);
      var room := Newest(rest, n);
      assert forall e :: e in room ==> e in c.entries;
      forall e | e in room + [Entry(key, f, expiry.value)] ensures e in c.entries || e == Entry(key, f, expiry.value) {
        assert e in room || e == Entry(key, f, expiry.value);
      }
    }
  }

  /** A response that is fresh on receipt is held from then on, as the newest entry; any other changes nothing. */
  lemma FreshIsHeld(c: Cache<Fetch>, max: int, key: string, f: Fetch, capSeconds: nat)
    ensures f.t1.Some? && FreshAt(f, capSeconds, f.t1.value) && GoodReading(c.lastObserved, f.t1) ==>
      && ComputeCacheExpiryMs(f, capSeconds).Some?
      && Held(Store(c, max, key, f, capSeconds).entries, Entry(key, f, ComputeCacheExpiryMs(f, capSeconds).value), {})
      && Entry(key, f, ComputeCacheExpiryMs(f, capSeconds).value) in Store(c, max, key, f, capSeconds).entries
      && Store(c, max, key, f, capSeconds).lastObserved == f.t1
    ensures !(f.t1.Some? && FreshAt(f, capSeconds, f.t1.value)) ==> Store(c, max, key, f, capSeconds) == c
  {
    hide ComputeCacheExpiryMs, FreshAt;
    StoredExactlyWhenFreshOnReceipt(f, capSeconds);
    var expiry := ComputeCacheExpiryMs(f, capSeconds);
    if expiry.Some? && GoodReading(c.lastObserved, f.t1) { JustStored(c, max, Call.Set(key, f, expiry, f.t1)); }
  }

  /** A lookup serves exactly the held document of its key, and exactly while that is fresh. */
  lemma ServedExactlyWhileFresh(c: Cache<Fetch>, capSeconds: nat, key: string, now: Option<int>, f: Fetch)
    requires Honest(c, capSeconds) && UniqueKeys(c.entries)
    ensures DoGet(c, key, now).1 == Some(f) <==>
      && GoodReading(c.lastObserved, now)
      && (exists e :: e in c.entries && e.key == key && e.value == f)
      && FreshAt(f, capSeconds, now.value)
  {
    hide ComputeCacheExpiryMs, FreshAt;
    var found := Find(c.entries, key);
    if GoodReading(c.lastObserved, now) && found.Some? {
      ExpiryIsEndOfFreshness(found.value.value, capSeconds, now.value);
      forall e | e in c.entries && e.key == key ensures e == found.value {
        FindUnique(c.entries, e);
      }
    }
  }
}
