/** The bounded two-level bucket cache of the REST rate limiter: routes map to discovered bucket
    keys, which map to shared buckets. Times are nanoseconds. */
module RateLimiter {
  import opened Prelude

  const CLEANUP_INTERVAL: int := 60_000_000_000

  /** Major keys are SHA-256 digests in hexadecimal. */
  const MAJOR_SIZE: nat := 64

  /** The cache's string keys by their parts. Rendering is injective on keys of digests, so the
      maps below have exactly the entries of maps from strings. */
  datatype Key = RouteKey(route: string, major: string) | DiscoveredKey(hash: string, major: string)

  function Rendered(key: Key): string
  {
    match key
    case RouteKey(route, major) => "route:" + route + "|" + "major:" + major
    case DiscoveredKey(hash, major) => "bucket:" + hash + "|" + "major:" + major
  }

  lemma EndsMatch(a: string, x: string, b: string, y: string)
    requires |x| == |y| && a + x == b + y
    ensures a == b && x == y
  {
    assert |a| == |b|;
    assert (a + x)[..|a|] == a && (b + y)[..|b|] == b;
    assert (a + x)[|a|..] == x && (b + y)[|b|..] == y;
  }

  lemma StartsMatch(x: string, a: string, y: string, b: string)
    requires |x| == |y| && x + a == y + b
    ensures x == y && a == b
  {
    assert (x + a)[..|x|] == x && (y + b)[..|y|] == y;
    assert (x + a)[|x|..] == a && (y + b)[|y|..] == b;
  }

  function Prefix(key: Key): string
  {
    if key.RouteKey? then "route:" else "bucket:"
  }

  function Name(key: Key): string
  {
    if key.RouteKey? then key.route else key.hash
  }

  lemma RenderedIsInjective(a: Key, b: Key)
    requires |a.major| == |b.major| == MAJOR_SIZE
    ensures Rendered(a) == Rendered(b) ==> a == b
    ensures Rendered(a) != ""
  {
    assert Rendered(a)[0] == Prefix(a)[0] && Rendered(b)[0] == Prefix(b)[0];
    if Rendered(a) == Rendered(b) {
      assert Prefix(a) == Prefix(b);
      EndsMatch(Prefix(a) + Name(a) + "|" + "major:", a.major, Prefix(b) + Name(b) + "|" + "major:", b.major);
      EndsMatch(Prefix(a) + Name(a) + "|", "major:", Prefix(b) + Name(b) + "|", "major:");
      EndsMatch(Prefix(a) + Name(a), "|", Prefix(b) + Name(b), "|");
      StartsMatch(Prefix(a), Name(a), Prefix(b), Name(b));
    }
  }

  class Bucket {
    const key: Key
    const routeKey: string
    const majorKey: string
    var lastUsed: int

    constructor (key: Key, routeKey: string, majorKey: string, now: int)
      ensures this.key == key && this.routeKey == routeKey && this.majorKey == majorKey && lastUsed == now
    {
      this.key, this.routeKey, this.majorKey, lastUsed := key, routeKey, majorKey, now;
    }
  }

  /** A cached bucket was made by a route lookup and is filed under a key ending in its major key. */
  predicate BucketsFiled(buckets: map<Key, Bucket>)
  {
    forall k :: k in buckets ==> k.major == buckets[k].majorKey && buckets[k].routeKey != ""
  }

  /** Mappings lead from routes to discovered buckets of the same major key. */
  predicate MappingsFiled(hashes: map<Key, Key>)
  {
    forall k :: k in hashes ==> k.RouteKey? && hashes[k].DiscoveredKey? && k.major == hashes[k].major
  }

  ghost predicate SameKeys(hashes: map<Key, Key>, used: map<Key, int>)
  {
    forall k :: k in hashes <==> k in used
  }

  /** Every mapping leads to a cached bucket. */
  predicate AllLive(hashes: map<Key, Key>, buckets: map<Key, Bucket>)
  {
    forall k :: k in hashes ==> hashes[k] in buckets
  }

  /** The first map is the second with some keys dropped. */
  ghost predicate Within<V>(m: map<Key, V>, n: map<Key, V>)
  {
    forall k :: k in m ==> k in n && m[k] == n[k]
  }

  /** Whatever was dropped had not been used later than anything kept. */
  ghost predicate LeastUsedDropped(kept: map<Key, int>, used: map<Key, int>)
  {
    forall k, e :: k in kept && e in used && e !in kept ==> used[e] <= kept[k]
  }

  lemma WithinIsNoLarger<V>(m: map<Key, V>, n: map<Key, V>)
    requires Within(m, n)
    ensures |m| <= |n|
  {
    assert m.Keys <= n.Keys;
    SubsetIsNoLarger(m.Keys, n.Keys);
  }

  lemma {:induction false} SubsetIsNoLarger(a: set<Key>, b: set<Key>)
    requires a <= b
    ensures |a| <= |b|
  {
    if a != {} {
      var x :| x in a;
      SubsetIsNoLarger(a - {x}, b - {x});
    }
  }

  datatype Limits = Limits(buckets: int, mappings: int)

  /** The cache's invariant: everything is filed properly, mappings are live, and the positive
      limits are kept. */
  ghost predicate Kept(buckets: map<Key, Bucket>, hashes: map<Key, Key>, used: map<Key, int>, limits: Limits)
  {
    && BucketsFiled(buckets) && MappingsFiled(hashes) && SameKeys(hashes, used) && AllLive(hashes, buckets)
    && (limits.buckets > 0 ==> |buckets| <= limits.buckets) && (limits.mappings > 0 ==> |hashes| <= limits.mappings)
  }

  lemma MappingAdded(buckets: map<Key, Bucket>, hashes: map<Key, Key>, used: map<Key, int>, limits: Limits,
                     routeKey: Key, bucketKey: Key, now: int)
    requires Kept(buckets, hashes, used, limits) && bucketKey in buckets
    requires routeKey.RouteKey? && bucketKey.DiscoveredKey? && routeKey.major == bucketKey.major
    requires routeKey in hashes || limits.mappings <= 0 || |hashes| < limits.mappings
    ensures Kept(buckets, hashes[routeKey := bucketKey], used[routeKey := now], limits)
  {
  }

  lemma MappingTouched(buckets: map<Key, Bucket>, hashes: map<Key, Key>, used: map<Key, int>, limits: Limits,
                       routeKey: Key, now: int)
    requires Kept(buckets, hashes, used, limits) && routeKey in hashes
    ensures Kept(buckets, hashes, used[routeKey := now], limits)
  {
  }

  lemma BucketAdded(buckets: map<Key, Bucket>, hashes: map<Key, Key>, used: map<Key, int>, limits: Limits,
                    key: Key, b: Bucket)
    requires Kept(buckets, hashes, used, limits) && (limits.buckets > 0 ==> |buckets| < limits.buckets)
    requires key.major == b.majorKey && b.routeKey != ""
    ensures Kept(buckets[key := b], hashes, used, limits)
  {
  }

  lemma KeptHasSameKeys(buckets: map<Key, Bucket>, hashes: map<Key, Key>, used: map<Key, int>, limits: Limits)
    requires Kept(buckets, hashes, used, limits)
    ensures SameKeys(hashes, used) && (limits.buckets > 0 ==> |buckets| <= limits.buckets)
    ensures forall k :: k in hashes ==> hashes[k] in buckets && hashes[k].DiscoveredKey?
    ensures forall k :: k in buckets ==> buckets[k].majorKey == k.major
  {
  }

  /** Dropping what keeps the mappings live keeps the invariant. */
  lemma DroppingKeeps(buckets: map<Key, Bucket>, hashes: map<Key, Key>, used: map<Key, int>, limits: Limits,
                      buckets': map<Key, Bucket>, hashes': map<Key, Key>, used': map<Key, int>)
    requires Kept(buckets, hashes, used, limits)
    requires Within(buckets', buckets) && Within(hashes', hashes) && SameKeys(hashes', used')
    requires AllLive(hashes', buckets')
    ensures Kept(buckets', hashes', used', limits)
  {
    WithinIsNoLarger(buckets', buckets);
    WithinIsNoLarger(hashes', hashes);
  }

  predicate FreshSince(ttl: int, used: int, now: int)
  {
    ttl <= 0 || used >= now - ttl
  }

  /** The cache as a call finds it: what is filed and when it was used last, the mappings and when
      they were, and the keys whose mapping and bucket are within the TTL. */
  datatype Snapshot = Snapshot(
    buckets: map<Key, Bucket>,
    times: map<Key, int>,
    hashes: map<Key, Key>,
    used: map<Key, int>,
    freshly: set<Key>)
  {
    ghost predicate Matches()
    {
      buckets.Keys == times.Keys && SameKeys(hashes, used) && forall k :: k in freshly ==> k in hashes
    }

    ghost predicate IsFresh(ttl: int, now: int)
    {
      forall k :: k in freshly ==> FreshMapping(this, k, ttl, now)
    }
  }

  ghost predicate FreshMapping(s: Snapshot, k: Key, ttl: int, now: int)
  {
    && k in s.hashes && k in s.used && FreshSince(ttl, s.used[k], now)
    && s.hashes[k] in s.buckets && s.hashes[k] in s.times && FreshSince(ttl, s.times[s.hashes[k]], now)
  }

  /** Adding a bucket keeps every fresh one filed where it was, except one that is taken `away` and
      those that give way: only if the cache is full then, and none used later than one that stays.
      Nothing else is filed anew. */
  ghost predicate BucketsAfter(s: Snapshot, after: map<Key, Bucket>, added: Key, away: Option<Key>, ttl: int,
                               now: int, limit: int)
    requires s.Matches()
  {
    && (forall k :: k in after && k != added ==> k in s.buckets && after[k] == s.buckets[k])
    && forall e :: e in s.buckets && away != Some(e) && FreshSince(ttl, s.times[e], now) && e !in after ==>
         BucketGaveWay(s, after, added, e, limit)
  }

  ghost predicate BucketGaveWay(s: Snapshot, after: map<Key, Bucket>, added: Key, e: Key, limit: int)
    requires s.Matches() && e in s.buckets
  {
    && limit > 0 && |after| == limit && added in after
    && forall k :: k in after && k != added ==> k in s.buckets && s.times[e] <= s.times[k]
  }

  /** Writing a mapping keeps every fresh one whose bucket stays, except those that give way to a new
      one: only if the table is full then, and none used later than one that stays. */
  ghost predicate MappingsAfter(s: Snapshot, buckets: map<Key, Bucket>, after: map<Key, Key>, used: map<Key, int>,
                                written: Key, limit: int)
    requires s.Matches() && SameKeys(after, used)
  {
    && (forall k :: k in after && k != written ==> k in s.hashes && after[k] == s.hashes[k] && used[k] == s.used[k])
    && forall e :: e in s.freshly && s.hashes[e] in buckets && e !in after ==>
         MappingGaveWay(s, after, written, e, limit)
  }

  ghost predicate MappingGaveWay(s: Snapshot, after: map<Key, Key>, written: Key, e: Key, limit: int)
    requires s.Matches() && e in s.hashes
  {
    && limit > 0 && |after| == limit && written in after
    && forall k :: k in after && k != written ==> k in s.hashes && s.used[e] <= s.used[k]
  }

  /** After the cleanup: only stale buckets are gone, and no fresh mapping to a fresh bucket. */
  ghost predicate Cleaned(s: Snapshot, buckets: map<Key, Bucket>, hashes: map<Key, Key>, used: map<Key, int>,
                          ttl: int, now: int)
    requires s.Matches()
  {
    && Within(buckets, s.buckets) && Within(hashes, s.hashes) && Within(used, s.used) && SameKeys(hashes, used)
    && (forall e :: e in s.buckets && FreshSince(ttl, s.times[e], now) ==> e in buckets)
    && (forall e :: e in s.freshly ==> s.hashes[e] in buckets && e in hashes)
  }

  /** Room for one more bucket: the least recently used ones are gone, and only as many as needed. */
  ghost predicate RoomFor(times: map<Key, int>, before: map<Key, Bucket>, roomy: map<Key, Bucket>, limit: int)
  {
    && Within(roomy, before) && (roomy == before || (limit > 0 && |roomy| + 1 >= limit))
    && (limit > 0 ==> |roomy| + 1 <= limit)
    && forall k, e :: k in roomy && e in before && e !in roomy ==> k in times && e in times && times[e] <= times[k]
  }

  /** Nothing is gone but what was at `away`. */
  ghost predicate Without(after: map<Key, Bucket>, before: map<Key, Bucket>, away: Option<Key>)
  {
    Within(after, before) && forall k :: k in before && away != Some(k) ==> k in after
  }

  lemma WithoutNothing(buckets: map<Key, Bucket>, away: Option<Key>)
    ensures Without(buckets, buckets, away)
  {
  }

  /** Other keys keep their buckets. */
  lemma WithoutKeeps(after: map<Key, Bucket>, before: map<Key, Bucket>, away: Option<Key>, key: Key)
    requires Without(after, before, away) && away != Some(key)
    ensures key in after <==> key in before
    ensures key in before ==> after[key] == before[key]
  {
  }

  /** The buckets were last used at these times. */
  ghost predicate Timed(buckets: map<Key, Bucket>, times: map<Key, int>)
    reads buckets.Values
  {
    forall k :: k in buckets ==> k in times && buckets[k].lastUsed == times[k]
  }

  lemma StillTimed(after: map<Key, Bucket>, before: map<Key, Bucket>, away: Option<Key>, times: map<Key, int>)
    requires Timed(before, times) && Without(after, before, away)
    ensures Timed(after, times)
  {
  }

  /** Exactly the mappings to the buckets that are left are kept. */
  ghost predicate LinksFollow(before: map<Key, Key>, after: map<Key, Key>, buckets: map<Key, Bucket>)
  {
    forall k :: k in before ==> (k in after <==> before[k] in buckets)
  }

  lemma RoomIsMade(times: map<Key, int>, before: map<Key, Bucket>, roomy: map<Key, Bucket>, limit: int)
    requires Timed(before, times) && Within(roomy, before) && (roomy == before || (limit > 0 && |roomy| + 1 >= limit))
    requires limit > 0 ==> |roomy| + 1 <= limit
    requires forall k, e :: k in roomy && e in before && e !in roomy ==> before[e].lastUsed <= before[k].lastUsed
    ensures RoomFor(times, before, roomy, limit)
  {
  }

  lemma LinksLive(before: map<Key, Key>, after: map<Key, Key>, buckets: map<Key, Bucket>)
    requires Within(after, before) && LinksFollow(before, after, buckets)
    ensures AllLive(after, buckets)
  {
  }

  /** Every fresh mapping whose bucket is left is kept. */
  ghost predicate FreshLinksStay(s: Snapshot, buckets: map<Key, Bucket>, after: map<Key, Key>)
    requires s.Matches()
  {
    forall e :: e in s.freshly && s.hashes[e] in buckets ==> e in after
  }

  /** At most a bucket is taken off the cleaned cache. */
  lemma BucketsStay(s: Snapshot, buckets: map<Key, Bucket>, hashes: map<Key, Key>, used: map<Key, int>,
                    after: map<Key, Bucket>, added: Key, left: Option<Key>, away: Option<Key>, ttl: int, now: int,
                    limit: int)
    requires s.Matches() && Cleaned(s, buckets, hashes, used, ttl, now) && Without(after, buckets, left)
    requires left.Some? ==> away == left
    ensures BucketsAfter(s, after, added, away, ttl, now, limit)
  {
  }

  /** A bucket is filed after making room for it. */
  lemma BucketsMoved(s: Snapshot, cleaned: map<Key, Bucket>, hashes: map<Key, Key>, used: map<Key, int>,
                     unfiled: map<Key, Bucket>, roomy: map<Key, Bucket>, added: Key, b: Bucket, left: Option<Key>,
                     away: Option<Key>, ttl: int, now: int, limit: int)
    requires s.Matches() && Cleaned(s, cleaned, hashes, used, ttl, now) && Without(unfiled, cleaned, left)
    requires left.Some? ==> away == left
    requires RoomFor(s.times, unfiled, roomy, limit) && added !in roomy
    ensures BucketsAfter(s, roomy[added := b], added, away, ttl, now, limit)
  {
    assert |roomy[added := b]| == |roomy| + 1;
  }

  lemma CleanedLinks(s: Snapshot, buckets: map<Key, Bucket>, hashes: map<Key, Key>, used: map<Key, int>,
                     after: map<Key, Bucket>, ttl: int, now: int)
    requires s.Matches() && Cleaned(s, buckets, hashes, used, ttl, now)
    ensures FreshLinksStay(s, after, hashes) && Within(hashes, s.hashes) && Within(used, s.used)
  {
  }

  /** The mappings that are left when room was made for a bucket. */
  lemma RoomyLinks(s: Snapshot, cleaned: map<Key, Bucket>, hashes: map<Key, Key>, used: map<Key, int>,
                   roomy: map<Key, Bucket>, linked: map<Key, Key>, linkedUsed: map<Key, int>, added: Key, b: Bucket,
                   ttl: int, now: int)
    requires s.Matches() && Cleaned(s, cleaned, hashes, used, ttl, now) && added !in cleaned
    requires Within(linked, hashes) && Within(linkedUsed, used) && LinksFollow(hashes, linked, roomy)
    ensures FreshLinksStay(s, roomy[added := b], linked) && Within(linked, s.hashes) && Within(linkedUsed, s.used)
  {
  }

  /** Mappings are dropped with their buckets only. */
  lemma MappingsStay(s: Snapshot, buckets: map<Key, Bucket>, after: map<Key, Key>, used: map<Key, int>, written: Key,
                     limit: int)
    requires s.Matches() && SameKeys(after, used) && Within(after, s.hashes) && FreshLinksStay(s, buckets, after)
    requires Within(used, s.used)
    ensures MappingsAfter(s, buckets, after, used, written, limit)
  {
  }

  /** A mapping is marked as used. */
  lemma MappingsTouched(s: Snapshot, buckets: map<Key, Bucket>, after: map<Key, Key>, used: map<Key, int>, written: Key,
                        now: int, limit: int)
    requires s.Matches() && SameKeys(after, used) && Within(after, s.hashes) && FreshLinksStay(s, buckets, after)
    requires Within(used, s.used) && written in after
    ensures SameKeys(after, used[written := now])
    ensures MappingsAfter(s, buckets, after, used[written := now], written, limit)
  {
  }

  /** What writing a mapping keeps of the others: all of them, unless a new one does not fit, and
      then the least recently used are gone. */
  ghost predicate RoomForMapping(before: map<Key, Key>, beforeUsed: map<Key, int>, kept: map<Key, Key>,
                                 keptUsed: map<Key, int>, written: Key, limit: int)
  {
    && Within(kept, before) && Within(keptUsed, beforeUsed) && SameKeys(kept, keptUsed)
    && LeastUsedDropped(keptUsed, beforeUsed)
    && (kept == before || (written !in before && limit > 0 && |kept| == limit - 1))
  }

  /** A mapping is written after making room for it. */
  lemma MappingsMoved(s: Snapshot, buckets: map<Key, Bucket>, before: map<Key, Key>, beforeUsed: map<Key, int>,
                      kept: map<Key, Key>, keptUsed: map<Key, int>, written: Key, target: Key, now: int, limit: int)
    requires s.Matches() && FreshLinksStay(s, buckets, before) && SameKeys(before, beforeUsed)
    requires Within(before, s.hashes) && Within(beforeUsed, s.used)
    requires RoomForMapping(before, beforeUsed, kept, keptUsed, written, limit)
    ensures SameKeys(kept[written := target], keptUsed[written := now])
    ensures MappingsAfter(s, buckets, kept[written := target], keptUsed[written := now], written, limit)
  {
    if written !in kept { assert |kept[written := target]| == |kept| + 1; }
  }

  /** Making room brings nothing back. */
  lemma StillGone(before: map<Key, Bucket>, roomy: map<Key, Bucket>, key: Key, b: Bucket, times: map<Key, int>,
                  limit: int)
    requires RoomFor(times, before, roomy, limit) && (key in before ==> before[key] != b)
    ensures key in roomy ==> roomy[key] != b
  {
  }

  /** Mappings to fewer buckets are left. */
  lemma FewerBuckets(s: Snapshot, before: map<Key, Bucket>, buckets: map<Key, Bucket>, away: Option<Key>,
                     after: map<Key, Key>, used: map<Key, int>, written: Key, limit: int)
    requires s.Matches() && SameKeys(after, used) && Without(buckets, before, away)
    requires MappingsAfter(s, before, after, used, written, limit)
    ensures MappingsAfter(s, buckets, after, used, written, limit)
  {
  }

  /** What the cleanup promises is that the cache is cleaned. */
  lemma CleanupCleans(s: Snapshot, buckets: map<Key, Bucket>, hashes: map<Key, Key>, used: map<Key, int>, ttl: int,
                      now: int)
    requires s.Matches() && s.IsFresh(ttl, now)
    requires Within(buckets, s.buckets) && Within(hashes, s.hashes) && Within(used, s.used) && SameKeys(hashes, used)
    requires forall k :: k in s.buckets && FreshSince(ttl, s.times[k], now) ==> k in buckets
    requires forall k :: k in s.hashes && s.hashes[k] in buckets && FreshSince(ttl, s.used[k], now) ==> k in hashes
    ensures Cleaned(s, buckets, hashes, used, ttl, now)
  {
  }

  lemma WithinWithin<V>(m: map<Key, V>, n: map<Key, V>, o: map<Key, V>)
    requires Within(m, n) && Within(n, o)
    ensures Within(m, o)
  {
  }

  /** The bucket is filed nowhere else. */
  ghost predicate OnlyAt(buckets: map<Key, Bucket>, b: Bucket, home: Key)
  {
    forall k :: k in buckets && buckets[k] == b ==> k == home
  }

  /** The bucket is filed nowhere but at these two keys. */
  ghost predicate OnlyAtEither(buckets: map<Key, Bucket>, b: Bucket, origin: Key, target: Key)
  {
    forall k :: k in buckets && buckets[k] == b ==> k == origin || k == target
  }

  ghost predicate FiledAt(buckets: map<Key, Bucket>, key: Key, b: Bucket)
  {
    key in buckets && buckets[key] == b
  }

  /** Registering a bucket that is filed at its route only, or at the target only, files it at most
      at the target. */
  lemma FiledOnce(s: Snapshot, after: map<Key, Bucket>, b: Bucket, origin: Key, target: Key, away: Option<Key>,
                  ttl: int, now: int, limit: int)
    requires s.Matches() && BucketsAfter(s, after, target, away, ttl, now, limit)
    requires FiledAt(s.buckets, target, b) || !FiledAt(after, origin, b)
    ensures OnlyAt(s.buckets, b, target) ==> OnlyAt(after, b, target)
    ensures origin != target && OnlyAt(s.buckets, b, origin) ==> OnlyAt(after, b, target)
  {
  }

  /** Where nothing expires and nothing gives way, a bucket is filed once after it is registered
      exactly when it was filed at no third key. */
  lemma FiledOnceIff(s: Snapshot, after: map<Key, Bucket>, b: Bucket, origin: Key, target: Key, away: Option<Key>,
                     ttl: int, now: int, limit: int)
    requires s.Matches() && BucketsAfter(s, after, target, away, ttl, now, limit) && ttl <= 0 && limit <= 0
    requires !FiledAt(after, origin, b) && (away.Some? ==> away.value == origin)
    ensures OnlyAt(after, b, target) <==> OnlyAtEither(s.buckets, b, origin, target)
  {
    forall k | k in s.buckets && s.buckets[k] == b && k != origin && k != target
      ensures k in after && after[k] == b
    {
      assert FreshSince(ttl, s.times[k], now);
    }
  }

  class RateLimiter {
    var buckets: map<Key, Bucket>
    var bucketHashes: map<Key, Key>
    var bucketHashUsed: map<Key, int>
    var lastCleanup: Option<int>
    const bucketTTL: int
    const limits: Limits

    ghost predicate Valid()
      reads this
    {
      Kept(buckets, bucketHashes, bucketHashUsed, limits)
    }

    /** The mappings are some of the old ones, with the old times of use. */
    twostate predicate MappingsOnlyDropped()
      reads this
    {
      && Within(bucketHashes, old(bucketHashes)) && Within(bucketHashUsed, old(bucketHashUsed))
      && SameKeys(bucketHashes, bucketHashUsed)
    }

    constructor (bucketTTL: int, limits: Limits)
      ensures Valid() && buckets == map[] && bucketHashes == map[]
    {
      this.bucketTTL, this.limits := bucketTTL, limits;
      buckets, bucketHashes, bucketHashUsed, lastCleanup := map[], map[], map[], None;
    }

    /** Drops exactly the mappings whose bucket is gone. */
    method RemoveDanglingBucketHashes()
      requires SameKeys(bucketHashes, bucketHashUsed)
      modifies this`bucketHashes, this`bucketHashUsed
      ensures MappingsOnlyDropped()
      ensures LinksFollow(old(bucketHashes), bucketHashes, buckets)
    {
      var rest := bucketHashes.Keys;
      while rest != {}
        invariant MappingsOnlyDropped() && forall k :: k in rest ==> k in bucketHashes
        invariant forall k :: k in old(bucketHashes) && k !in rest ==>
                    (k in bucketHashes <==> old(bucketHashes)[k] in buckets)
        decreases |rest|
      {
        var routeKey :| routeKey in rest;
        if bucketHashes[routeKey] !in buckets {
          bucketHashes := bucketHashes - {routeKey};
          bucketHashUsed := bucketHashUsed - {routeKey};
        }
        rest := rest - {routeKey};
      }
    }

    /** Drops exactly the buckets not used since the cutoff. */
    method DropOldBuckets(cutoff: int)
      modifies this`buckets
      ensures Within(buckets, old(buckets))
      ensures forall k :: k in old(buckets) ==> (k in buckets <==> old(buckets)[k].lastUsed >= cutoff)
    {
      var rest := buckets.Keys;
      while rest != {}
        invariant Within(buckets, old(buckets)) && forall k :: k in rest ==> k in buckets
        invariant forall k :: k in old(buckets) && k !in rest ==> (k in buckets <==> old(buckets)[k].lastUsed >= cutoff)
        decreases |rest|
      {
        var key :| key in rest;
        if buckets[key].lastUsed < cutoff {
          buckets := buckets - {key};
        }
        rest := rest - {key};
      }
    }

    /** Drops exactly the mappings not used since the cutoff. */
    method DropOldMappings(cutoff: int)
      requires SameKeys(bucketHashes, bucketHashUsed)
      modifies this`bucketHashes, this`bucketHashUsed
      ensures MappingsOnlyDropped()
      ensures forall k :: k in old(bucketHashUsed) ==> (k in bucketHashes <==> old(bucketHashUsed)[k] >= cutoff)
    {
      var rest := bucketHashUsed.Keys;
      while rest != {}
        invariant MappingsOnlyDropped() && forall k :: k in rest ==> k in bucketHashUsed
        invariant forall k :: k in old(bucketHashUsed) && k !in rest ==>
                    (k in bucketHashes <==> old(bucketHashUsed)[k] >= cutoff)
        decreases |rest|
      {
        var routeKey :| routeKey in rest;
        if bucketHashUsed[routeKey] < cutoff {
          bucketHashes := bucketHashes - {routeKey};
          bucketHashUsed := bucketHashUsed - {routeKey};
        }
        rest := rest - {routeKey};
      }
    }

    predicate Fresh(used: int, now: int)
    {
      FreshSince(bucketTTL, used, now)
    }

    /** A minute, or half the TTL if that is shorter; so no cleanup is put off for longer than a minute
        or, if it is not tiny, the TTL itself. */
    function CleanupInterval(): (interval: int)
      ensures 0 < interval <= 60_000_000_000 && (bucketTTL >= 2 ==> 2 * interval <= bucketTTL)
      ensures interval == 60_000_000_000 || interval == bucketTTL / 2
    {
      var halfTTL := bucketTTL / 2;
      if 0 < halfTTL < CLEANUP_INTERVAL then halfTTL else CLEANUP_INTERVAL
    }

    predicate CleanupDue(now: int)
      reads this
    {
      bucketTTL > 0 && (lastCleanup.None? || now - lastCleanup.value >= CleanupInterval())
    }

    /** What a call finds. */
    ghost function Snap(now: int): (s: Snapshot)
      requires SameKeys(bucketHashes, bucketHashUsed)
      reads this, buckets.Values
      ensures s.Matches() && s.buckets == buckets && s.hashes == bucketHashes && s.used == bucketHashUsed
      ensures forall k :: k in buckets ==> s.times[k] == buckets[k].lastUsed
      ensures (forall k :: k in s.freshly <==> FreshlyMapped(k, now)) && s.IsFresh(bucketTTL, now)
    {
      Snapshot(buckets, map k | k in buckets :: buckets[k].lastUsed, bucketHashes, bucketHashUsed,
               set k | k in bucketHashes && FreshlyMapped(k, now))
    }

    /** The cleanup that is due drops exactly the buckets past the TTL, and the mappings past it or
        left without a bucket. */
    method DropStale(now: int)
      requires Valid() && bucketTTL > 0
      modifies this`buckets, this`bucketHashes, this`bucketHashUsed
      ensures Valid() && Within(buckets, old(buckets)) && MappingsOnlyDropped()
      ensures forall k :: k in old(buckets) ==> (k in buckets <==> Fresh(old(buckets)[k].lastUsed, now))
      ensures forall k :: k in old(bucketHashes) ==>
                (k in bucketHashes <==> old(bucketHashes)[k] in buckets && Fresh(old(bucketHashUsed)[k], now))
    {
      KeptHasSameKeys(buckets, bucketHashes, bucketHashUsed, limits);
      hide Kept;
      var cutoff := now - bucketTTL;
      DropOldBuckets(cutoff);
      DropOldMappings(cutoff);
      ghost var recent, recentUsed := bucketHashes, bucketHashUsed;
      RemoveDanglingBucketHashes();
      WithinWithin(bucketHashes, recent, old(bucketHashes));
      WithinWithin(bucketHashUsed, recentUsed, old(bucketHashUsed));
      LinksLive(recent, bucketHashes, buckets);
      DroppingKeeps(old(buckets), old(bucketHashes), old(bucketHashUsed), limits, buckets, bucketHashes,
                    bucketHashUsed);
    }

    /** The periodic cleanup keeps every bucket used within the TTL, and every mapping used within
        it whose bucket is kept; once it is due nothing else stays, and before it nothing goes. It is
        due after a minute at the latest, and after half the TTL. */
    method CleanupBuckets(now: int)
      requires Valid()
      modifies this
      ensures Valid() && Within(buckets, old(buckets)) && MappingsOnlyDropped()
      ensures forall k :: k in old(buckets) && Fresh(old(buckets)[k].lastUsed, now) ==> k in buckets
      ensures forall k :: k in old(bucketHashes) && old(bucketHashes)[k] in buckets ==>
                (Fresh(old(bucketHashUsed)[k], now) ==> k in bucketHashes)
      ensures !old(CleanupDue(now)) ==>
                buckets == old(buckets) && bucketHashes == old(bucketHashes) && bucketHashUsed == old(bucketHashUsed)
      ensures old(CleanupDue(now)) ==> forall k :: k in buckets ==> Fresh(buckets[k].lastUsed, now)
      ensures old(CleanupDue(now)) ==> forall k :: k in bucketHashes ==> Fresh(old(bucketHashUsed)[k], now)
      ensures lastCleanup == if old(CleanupDue(now)) then Some(now) else old(lastCleanup)
      ensures bucketTTL > 0 && (old(lastCleanup).None? || now - old(lastCleanup).value >= 60_000_000_000) ==>
                forall k :: k in buckets ==> buckets[k].lastUsed >= now - bucketTTL
      ensures bucketTTL >= 2 && old(lastCleanup).Some? && 2 * (now - old(lastCleanup).value) >= bucketTTL ==>
                forall k :: k in buckets ==> buckets[k].lastUsed >= now - bucketTTL
    {
      KeptHasSameKeys(buckets, bucketHashes, bucketHashUsed, limits);
      hide Kept;
      if bucketTTL <= 0 {
        return;
      }
      var interval := CLEANUP_INTERVAL;
      var halfTTL := bucketTTL / 2;
      if halfTTL > 0 && halfTTL < interval {
        interval := halfTTL;
      }
      if lastCleanup.Some? && now - lastCleanup.value < interval {
        return;
      }
      lastCleanup := Some(now);
      DropStale(now);
    }

    /** A least recently used bucket. */
    method OldestBucket() returns (oldestKey: Option<Key>)
      ensures buckets == map[] ==> oldestKey.None?
      ensures buckets != map[] ==> oldestKey.Some? && oldestKey.value in buckets
      ensures forall k :: k in buckets ==>
                oldestKey.Some? && oldestKey.value in buckets &&
                buckets[oldestKey.value].lastUsed <= buckets[k].lastUsed
    {
      oldestKey := None;
      var oldestUsed := 0;
      var rest := buckets.Keys;
      while rest != {}
        invariant rest <= buckets.Keys
        invariant oldestKey.None? ==> rest == buckets.Keys
        invariant oldestKey.Some? ==> oldestKey.value in buckets && oldestUsed == buckets[oldestKey.value].lastUsed
        invariant forall k :: k in buckets && k !in rest ==> oldestUsed <= buckets[k].lastUsed
        decreases |rest|
      {
        var key :| key in rest;
        var used := buckets[key].lastUsed;
        if oldestKey.None? || used < oldestUsed {
          oldestKey := Some(key);
          oldestUsed := used;
        }
        rest := rest - {key};
      }
      assert buckets != map[] ==> buckets.Keys != {};
    }

    /** Evicts buckets, least recently used first, and only as many as the room needs. */
    method EvictBuckets(extra: nat)
      requires extra >= 1 && limits.buckets > 0
      modifies this`buckets
      ensures Within(buckets, old(buckets)) && (extra <= limits.buckets ==> |buckets| + extra <= limits.buckets)
      ensures buckets == old(buckets) || |buckets| + extra >= limits.buckets
      ensures old(|buckets|) + extra <= limits.buckets ==> buckets == old(buckets)
      ensures forall k, e :: k in buckets && e in old(buckets) && e !in buckets ==>
                old(buckets)[e].lastUsed <= old(buckets)[k].lastUsed
    {
      ghost var bar := 0;
      while |buckets| + extra > limits.buckets
        invariant Within(buckets, old(buckets))
        invariant buckets == old(buckets) || |buckets| + extra >= limits.buckets
        invariant old(|buckets|) + extra <= limits.buckets ==> buckets == old(buckets)
        invariant forall e :: e in old(buckets) && e !in buckets ==> old(buckets)[e].lastUsed <= bar
        invariant buckets != old(buckets) ==> forall k :: k in buckets ==> bar <= buckets[k].lastUsed
        decreases |buckets|
      {
        var oldestKey := OldestBucket();
        if oldestKey.None? {
          break;
        }
        bar := buckets[oldestKey.value].lastUsed;
        buckets := buckets - {oldestKey.value};
      }
    }

    /** Makes room for `extra` buckets and drops the mappings to evicted ones. */
    method MakeBucketRoom(extra: nat)
      requires Valid() && extra >= 1
      modifies this`buckets, this`bucketHashes, this`bucketHashUsed
      ensures Valid() && Within(buckets, old(buckets)) && MappingsOnlyDropped()
      ensures limits.buckets > 0 && extra <= limits.buckets ==> |buckets| + extra <= limits.buckets
      ensures limits.buckets <= 0 || old(|buckets|) + extra <= limits.buckets ==> buckets == old(buckets)
      ensures buckets == old(buckets) || |buckets| + extra >= limits.buckets
      ensures forall k, e :: k in buckets && e in old(buckets) && e !in buckets ==>
                old(buckets)[e].lastUsed <= old(buckets)[k].lastUsed
      ensures LinksFollow(old(bucketHashes), bucketHashes, buckets)
    {
      if limits.buckets <= 0 {
        return;
      }
      EvictBuckets(extra);
      RemoveDanglingBucketHashes();
      DroppingKeeps(old(buckets), old(bucketHashes), old(bucketHashUsed), limits, buckets, bucketHashes,
                    bucketHashUsed);
    }

    /** A least recently used mapping. */
    method OldestMapping() returns (oldestKey: Option<Key>)
      ensures bucketHashUsed == map[] ==> oldestKey.None?
      ensures bucketHashUsed != map[] ==> oldestKey.Some? && oldestKey.value in bucketHashUsed
      ensures forall k :: k in bucketHashUsed ==>
                oldestKey.Some? && oldestKey.value in bucketHashUsed &&
                bucketHashUsed[oldestKey.value] <= bucketHashUsed[k]
    {
      oldestKey := None;
      var oldestUsed := 0;
      var rest := bucketHashUsed.Keys;
      while rest != {}
        invariant rest <= bucketHashUsed.Keys
        invariant oldestKey.None? ==> rest == bucketHashUsed.Keys
        invariant oldestKey.Some? ==> oldestKey.value in bucketHashUsed && oldestUsed == bucketHashUsed[oldestKey.value]
        invariant forall k :: k in bucketHashUsed && k !in rest ==> oldestUsed <= bucketHashUsed[k]
        decreases |rest|
      {
        var key :| key in rest;
        var used := bucketHashUsed[key];
        if oldestKey.None? || used < oldestUsed {
          oldestKey := Some(key);
          oldestUsed := used;
        }
        rest := rest - {key};
      }
      assert bucketHashUsed != map[] ==> bucketHashUsed.Keys != {};
    }

    /** Evicts mappings, least recently used first, until one more fits. */
    method EvictMappings()
      requires SameKeys(bucketHashes, bucketHashUsed) && limits.mappings > 0
      modifies this`bucketHashes, this`bucketHashUsed
      ensures MappingsOnlyDropped() && |bucketHashes| < limits.mappings
      ensures bucketHashes == old(bucketHashes) || |bucketHashes| == limits.mappings - 1
      ensures LeastUsedDropped(bucketHashUsed, old(bucketHashUsed))
    {
      ghost var bar := 0;
      while |bucketHashes| >= limits.mappings
        invariant MappingsOnlyDropped()
        invariant bucketHashes == old(bucketHashes) || |bucketHashes| >= limits.mappings - 1
        invariant forall e :: e in old(bucketHashUsed) && e !in bucketHashUsed ==> old(bucketHashUsed)[e] <= bar
        invariant bucketHashes != old(bucketHashes) ==> forall k :: k in bucketHashUsed ==> bar <= bucketHashUsed[k]
        decreases |bucketHashes|
      {
        var oldestKey := OldestMapping();
        if oldestKey.None? {
          assert false;
          break;
        }
        bar := bucketHashUsed[oldestKey.value];
        bucketHashes := bucketHashes - {oldestKey.value};
        bucketHashUsed := bucketHashUsed - {oldestKey.value};
      }
    }

    /** Makes room for one more mapping. */
    method MakeMappingRoom()
      requires Valid() && limits.mappings > 0
      modifies this`bucketHashes, this`bucketHashUsed
      ensures Valid() && MappingsOnlyDropped() && |bucketHashes| < limits.mappings
      ensures bucketHashes == old(bucketHashes) || |bucketHashes| == limits.mappings - 1
      ensures LeastUsedDropped(bucketHashUsed, old(bucketHashUsed))
    {
      EvictMappings();
      DroppingKeeps(old(buckets), old(bucketHashes), old(bucketHashUsed), limits, buckets, bucketHashes,
                    bucketHashUsed);
    }

    /** Writes a mapping for which there is room. */
    method PutMapping(routeKey: Key, bucketKey: Key, now: int)
      requires Valid() && bucketKey in buckets
      requires routeKey.RouteKey? && bucketKey.DiscoveredKey? && routeKey.major == bucketKey.major
      requires routeKey in bucketHashes || limits.mappings <= 0 || |bucketHashes| < limits.mappings
      modifies this`bucketHashes, this`bucketHashUsed
      ensures Valid()
      ensures bucketHashes == old(bucketHashes)[routeKey := bucketKey]
      ensures bucketHashUsed == old(bucketHashUsed)[routeKey := now]
    {
      MappingAdded(buckets, bucketHashes, bucketHashUsed, limits, routeKey, bucketKey, now);
      bucketHashes := bucketHashes[routeKey := bucketKey];
      bucketHashUsed := bucketHashUsed[routeKey := now];
    }

    /** Records a mapping: `kept` of the old ones stay, which is all of them unless a new one does
        not fit, and least recently used ones are evicted first. */
    method SetBucketHash(routeKey: Key, bucketKey: Key, now: int)
      returns (ghost kept: map<Key, Key>, ghost keptUsed: map<Key, int>)
      requires Valid() && bucketKey in buckets
      requires routeKey.RouteKey? && bucketKey.DiscoveredKey? && routeKey.major == bucketKey.major
      modifies this`bucketHashes, this`bucketHashUsed
      ensures Valid()
      ensures bucketHashes == kept[routeKey := bucketKey] && bucketHashUsed == keptUsed[routeKey := now]
      ensures RoomForMapping(old(bucketHashes), old(bucketHashUsed), kept, keptUsed, routeKey, limits.mappings)
    {
      KeptHasSameKeys(buckets, bucketHashes, bucketHashUsed, limits);
      hide Kept;
      if routeKey !in bucketHashes && limits.mappings > 0 {
        MakeMappingRoom();
      }
      kept, keptUsed := bucketHashes, bucketHashUsed;
      PutMapping(routeKey, bucketKey, now);
    }

    /** The key is mapped, and neither the mapping nor its bucket is past the TTL. */
    ghost predicate FreshlyMapped(key: Key, now: int)
      reads this, buckets.Values
    {
      && key in bucketHashes && key in bucketHashUsed && bucketHashes[key] in buckets
      && Fresh(bucketHashUsed[key], now) && Fresh(buckets[bucketHashes[key]].lastUsed, now)
    }

    /** Files a bucket for which there is room. */
    method FileBucket(key: Key, b: Bucket)
      requires Valid() && (limits.buckets > 0 ==> |buckets| < limits.buckets)
      requires key.major == b.majorKey && b.routeKey != ""
      modifies this`buckets
      ensures Valid() && buckets == old(buckets)[key := b]
    {
      BucketAdded(buckets, bucketHashes, bucketHashUsed, limits, key, b);
      buckets := buckets[key := b];
    }

    /** The key a bucket leaves when it is registered: its route's, if it is filed there. */
    ghost function Leaves(b: Bucket, origin: Key): Option<Key>
      reads this
    {
      if origin in buckets && buckets[origin] == b then Some(origin) else None
    }

    /** Unfiles a bucket if it is the one at a route; no mapping is stranded, since mappings lead to
        discovered keys. */
    method UnfileRouteBucket(origin: Key, b: Bucket)
      requires Valid() && origin.RouteKey?
      modifies this`buckets
      ensures Valid() && Without(buckets, old(buckets), old(Leaves(b, origin)))
      ensures Leaves(b, origin).None?
    {
      if origin in buckets && buckets[origin] == b {
        buckets := buckets - {origin};
        DroppingKeeps(old(buckets), bucketHashes, bucketHashUsed, limits, buckets, bucketHashes, bucketHashUsed);
      }
    }

    /** Where a lookup ends: at the mapped bucket, or else at the route's own. */
    ghost predicate LeadsTo(key: Key, b: Bucket, now: int)
      reads this
    {
      && (key in bucketHashes ==>
            && bucketHashes[key] in buckets && buckets[bucketHashes[key]] == b
            && key in bucketHashUsed && bucketHashUsed[key] == now)
      && (key !in bucketHashes ==> key in buckets && buckets[key] == b)
    }

    /** A mapped key's bucket, with its mapping marked as used. */
    method FollowMapping(key: Key, now: int) returns (b: Bucket)
      requires Valid() && key in bucketHashes
      modifies this`bucketHashUsed
      ensures Valid() && LeadsTo(key, b, now) && b == buckets[bucketHashes[key]] && key.major == b.majorKey
      ensures bucketHashUsed == old(bucketHashUsed)[key := now]
    {
      MappingTouched(buckets, bucketHashes, bucketHashUsed, limits, key, now);
      bucketHashUsed := bucketHashUsed[key := now];
      b := buckets[bucketHashes[key]];
    }

    /** The cache is the snapshot after its cleanup, with the old times of use. */
    ghost predicate Started(s: Snapshot, now: int)
      reads this, buckets.Values
    {
      s.Matches() && Cleaned(s, buckets, bucketHashes, bucketHashUsed, bucketTTL, now) && Timed(buckets, s.times)
    }

    /** What a call has left of the snapshot. */
    ghost predicate Framed(s: Snapshot, added: Key, away: Option<Key>, written: Key, now: int)
      reads this
    {
      && s.Matches() && SameKeys(bucketHashes, bucketHashUsed)
      && BucketsAfter(s, buckets, added, away, bucketTTL, now, limits.buckets)
      && MappingsAfter(s, buckets, bucketHashes, bucketHashUsed, written, limits.mappings)
    }

    /** The only buckets a lookup may mark as used: the one its key is mapped to and the one filed at it. */
    ghost function Leads(key: Key): set<Bucket>
      reads this
    {
      (if key in bucketHashes && bucketHashes[key] in buckets then {buckets[bucketHashes[key]]} else {})
      + (if key in buckets then {buckets[key]} else {})
    }

    /** The cleanup every call starts with. */
    method StartCall(now: int)
      requires Valid()
      modifies this
      ensures Valid() && Started(old(Snap(now)), now)
    {
      KeptHasSameKeys(buckets, bucketHashes, bucketHashUsed, limits);
      hide Kept;
      ghost var s := Snap(now);
      CleanupBuckets(now);
      CleanupCleans(s, buckets, bucketHashes, bucketHashUsed, bucketTTL, now);
      hide Cleaned, SameKeys;
    }

    /** Files a bucket at a key, with room made for it. */
    method AddBucket(key: Key, b: Bucket, ghost times: map<Key, int>) returns (ghost roomy: map<Key, Bucket>)
      requires Valid() && key !in buckets && key.major == b.majorKey && b.routeKey != "" && Timed(buckets, times)
      modifies this`buckets, this`bucketHashes, this`bucketHashUsed
      ensures Valid() && MappingsOnlyDropped() && LinksFollow(old(bucketHashes), bucketHashes, roomy)
      ensures RoomFor(times, old(buckets), roomy, limits.buckets) && key !in roomy && buckets == roomy[key := b]
    {
      KeptHasSameKeys(buckets, bucketHashes, bucketHashUsed, limits);
      hide Kept, MappingsOnlyDropped, RoomFor;
      MakeBucketRoom(1);
      roomy := buckets;
      assert key !in roomy;
      RoomIsMade(times, old(buckets), roomy, limits.buckets);
      hide Within, LinksFollow, Timed;
      FileBucket(key, b);
    }

    /** A mapped key's bucket, marked as used with its mapping. */
    method ServeMapped(key: Key, now: int, ghost s: Snapshot) returns (b: Bucket)
      requires Valid() && key in bucketHashes && bucketHashes[key] in buckets && Started(s, now)
      modifies this`bucketHashUsed, buckets[bucketHashes[key]]
      ensures Valid() && LeadsTo(key, b, now) && b == buckets[bucketHashes[key]] && b.majorKey == key.major
      ensures b.lastUsed == now && Framed(s, key, None, key, now)
    {
      KeptHasSameKeys(buckets, bucketHashes, bucketHashUsed, limits);
      hide Kept, BucketsAfter, MappingsAfter, Cleaned, Within, SameKeys, FreshLinksStay;
      CleanedLinks(s, buckets, bucketHashes, bucketHashUsed, buckets, bucketTTL, now);
      b := FollowMapping(key, now);
      BucketsStay(s, buckets, bucketHashes, old(bucketHashUsed), buckets, key, None, None, bucketTTL, now,
                  limits.buckets);
      MappingsTouched(s, buckets, bucketHashes, old(bucketHashUsed), key, now, limits.mappings);
      b.lastUsed := now;
    }

    /** A route's own bucket, marked as used. */
    method ServeOwn(key: Key, now: int, ghost s: Snapshot) returns (b: Bucket)
      requires Valid() && key in buckets && Started(s, now)
      modifies buckets[key]
      ensures Valid() && b == buckets[key] && b.majorKey == key.major && b.lastUsed == now
      ensures Framed(s, key, None, key, now)
    {
      KeptHasSameKeys(buckets, bucketHashes, bucketHashUsed, limits);
      hide Kept, BucketsAfter, MappingsAfter, Cleaned, SameKeys, FreshLinksStay;
      b := buckets[key];
      CleanedLinks(s, buckets, bucketHashes, bucketHashUsed, buckets, bucketTTL, now);
      BucketsStay(s, buckets, bucketHashes, bucketHashUsed, buckets, key, None, None, bucketTTL, now, limits.buckets);
      MappingsStay(s, buckets, bucketHashes, bucketHashUsed, key, limits.mappings);
      b.lastUsed := now;
    }

    /** A new bucket for a route that has none. */
    method ServeNew(key: Key, routeKey: string, now: int, ghost s: Snapshot) returns (b: Bucket)
      requires Valid() && key !in buckets && key !in bucketHashes && key.RouteKey? && routeKey != "" && Started(s, now)
      modifies this`buckets, this`bucketHashes, this`bucketHashUsed
      ensures Valid() && fresh(b) && b.key == key && b.routeKey == routeKey && key in buckets && b == buckets[key]
      ensures key !in bucketHashes && Within(bucketHashes, old(bucketHashes))
      ensures b.majorKey == key.major && b.lastUsed == now && Framed(s, key, None, key, now)
    {
      KeptHasSameKeys(buckets, bucketHashes, bucketHashUsed, limits);
      hide Kept, BucketsAfter, MappingsAfter, RoomFor, Cleaned, SameKeys, FreshLinksStay, LinksFollow;
      b := new Bucket(key, routeKey, key.major, now);
      ghost var cleaned, hashes, used := buckets, bucketHashes, bucketHashUsed;
      ghost var roomy := AddBucket(key, b, s.times);
      BucketsMoved(s, cleaned, hashes, used, cleaned, roomy, key, b, None, None, bucketTTL, now, limits.buckets);
      RoomyLinks(s, cleaned, hashes, used, roomy, bucketHashes, bucketHashUsed, key, b, bucketTTL, now);
      MappingsStay(s, buckets, bucketHashes, bucketHashUsed, key, limits.mappings);
    }

    /** What the cleanup has left of one key. */
    lemma StartedKeeps(s: Snapshot, key: Key, now: int)
      requires Started(s, now)
      ensures key in s.freshly ==>
                && s.hashes[key] in buckets && key in bucketHashes && bucketHashes[key] == s.hashes[key]
                && s.hashes[key] in s.buckets && buckets[s.hashes[key]] == s.buckets[s.hashes[key]]
      ensures key in s.buckets && FreshSince(bucketTTL, s.times[key], now) ==>
                key in buckets && buckets[key] == s.buckets[key]
      ensures Within(bucketHashes, s.hashes) && (key in buckets ==> FiledAt(s.buckets, key, buckets[key]))
      ensures key in bucketHashes ==> key in s.hashes && bucketHashes[key] == s.hashes[key]
      ensures key in bucketHashes && bucketHashes[key] in buckets ==>
                FiledAt(s.buckets, bucketHashes[key], buckets[bucketHashes[key]])
    {
    }

    /** A lookup after its cleanup: only the bucket it finds is marked as used. */
    method Serve(key: Key, routeKey: string, now: int, ghost s: Snapshot) returns (b: Bucket)
      requires Valid() && routeKey != "" && key.RouteKey? && Started(s, now)
      modifies this`buckets, this`bucketHashes, this`bucketHashUsed, Leads(key)
      ensures Valid() && b.majorKey == key.major && b.lastUsed == now && LeadsTo(key, b, now)
      ensures key in old(bucketHashes) ==>
                key in bucketHashes && old(bucketHashes)[key] in old(buckets) &&
                b == old(buckets)[old(bucketHashes)[key]]
      ensures key !in old(bucketHashes) && key in old(buckets) ==> b == old(buckets)[key]
      ensures key !in old(bucketHashes) && key !in old(buckets) ==> fresh(b) && b.key == key && b.routeKey == routeKey
      ensures Within(bucketHashes, old(bucketHashes))
      ensures Framed(s, key, None, key, now)
    {
      KeptHasSameKeys(buckets, bucketHashes, bucketHashUsed, limits);
      hide Kept, Framed, SameKeys, Started;
      if key in bucketHashes {
        b := ServeMapped(key, now, s);
      } else if key in buckets {
        b := ServeOwn(key, now, s);
      } else {
        b := ServeNew(key, routeKey, now, s);
      }
    }

    method GetBucket(key: Key, routeKey: string, now: int) returns (b: Bucket)
      requires Valid() && routeKey != "" && key.RouteKey?
      modifies this, Leads(key)
      ensures Valid() && b.majorKey == key.major && b.lastUsed == now && LeadsTo(key, b, now)
      ensures old(FreshlyMapped(key, now)) ==> b == old(buckets[bucketHashes[key]])
      ensures key !in bucketHashes && key in old(buckets) && old(Fresh(buckets[key].lastUsed, now)) ==>
                b == old(buckets[key])
      ensures key !in old(bucketHashes) && key !in old(buckets) ==> fresh(b) && b.key == key && b.routeKey == routeKey
      ensures Within(bucketHashes, old(bucketHashes)) && Framed(old(Snap(now)), key, None, key, now)
    {
      KeptHasSameKeys(buckets, bucketHashes, bucketHashUsed, limits);
      hide Kept, SameKeys, Framed, LeadsTo, Started, Within;
      ghost var s := Snap(now);
      StartCall(now);
      StartedKeeps(s, key, now);
      ghost var cleaned := bucketHashes;
      b := Serve(key, routeKey, now, s);
      WithinWithin(bucketHashes, cleaned, s.hashes);
    }

    /** A lookup returns a live bucket of the major key asked for, marked as used now: a fresh
        mapping is followed, and a route without a mapping has its own fresh bucket again. Nothing
        else that is fresh goes, except what gives way to a new bucket. */
    method GetRouteBucket(routeKey: string, majorKey: string, now: int) returns (b: Bucket)
      requires Valid() && routeKey != ""
      modifies this, Leads(RouteKey(routeKey, majorKey))
      ensures Valid() && b.majorKey == majorKey && b.lastUsed == now && LeadsTo(RouteKey(routeKey, majorKey), b, now)
      ensures old(FreshlyMapped(RouteKey(routeKey, majorKey), now)) ==>
                b == old(buckets[bucketHashes[RouteKey(routeKey, majorKey)]])
      ensures var key := RouteKey(routeKey, majorKey);
              key !in bucketHashes && key in old(buckets) && old(Fresh(buckets[key].lastUsed, now)) ==>
                b == old(buckets[key])
      ensures var key := RouteKey(routeKey, majorKey);
              key !in old(bucketHashes) && key !in old(buckets) ==> fresh(b) && b.key == key && b.routeKey == routeKey
      ensures Within(bucketHashes, old(bucketHashes))
      ensures Framed(old(Snap(now)), RouteKey(routeKey, majorKey), None, RouteKey(routeKey, majorKey), now)
    {
      b := GetBucket(RouteKey(routeKey, majorKey), routeKey, now);
    }

    /** The route is mapped to the discovered key, where the canonical bucket is filed. */
    ghost predicate Registered(origin: Key, target: Key, canonical: Bucket, now: int)
      reads this
    {
      && target in buckets && buckets[target] == canonical
      && origin in bucketHashes && bucketHashes[origin] == target
      && origin in bucketHashUsed && bucketHashUsed[origin] == now
    }

    /** Points the route at the target. */
    method PointAt(origin: Key, target: Key, now: int, ghost s: Snapshot)
      requires Valid() && target in buckets && s.Matches()
      requires origin.RouteKey? && target.DiscoveredKey? && origin.major == target.major
      requires FreshLinksStay(s, buckets, bucketHashes)
      requires Within(bucketHashes, s.hashes) && Within(bucketHashUsed, s.used)
      modifies this`bucketHashes, this`bucketHashUsed
      ensures Valid() && Registered(origin, target, buckets[target], now)
      ensures SameKeys(bucketHashes, bucketHashUsed)
      ensures MappingsAfter(s, buckets, bucketHashes, bucketHashUsed, origin, limits.mappings)
    {
      KeptHasSameKeys(buckets, bucketHashes, bucketHashUsed, limits);
      hide Kept, MappingsAfter, Within, SameKeys, FreshLinksStay, RoomForMapping;
      ghost var hashes, used := bucketHashes, bucketHashUsed;
      ghost var kept, keptUsed := SetBucketHash(origin, target, now);
      MappingsMoved(s, buckets, hashes, used, kept, keptUsed, origin, target, now, limits.mappings);
    }

    /** The bucket joins the one already filed at the target. */
    method Join(bucket: Bucket, origin: Key, target: Key, now: int, ghost s: Snapshot, ghost away: Option<Key>)
      returns (canonical: Bucket)
      requires Valid() && target in buckets && Started(s, now)
      requires origin.RouteKey? && target.DiscoveredKey? && origin.major == target.major
      requires Leaves(bucket, origin).Some? ==> away == Some(origin)
      modifies this`buckets, this`bucketHashes, this`bucketHashUsed, buckets[target]
      ensures Valid() && Registered(origin, target, canonical, now)
      ensures canonical == old(buckets)[target] && canonical.lastUsed == now
      ensures Framed(s, target, away, origin, now)
      ensures canonical != bucket ==> Leaves(bucket, origin).None?
    {
      hide Kept, BucketsAfter, MappingsAfter, Cleaned, Within, SameKeys, FreshLinksStay, Without, Timed;
      ghost var cleaned, hashes, used := buckets, bucketHashes, bucketHashUsed;
      CleanedLinks(s, cleaned, hashes, used, cleaned, bucketTTL, now);
      canonical := buckets[target];
      PointAt(origin, target, now, s);
      canonical.lastUsed := now;
      ghost var left := Leaves(bucket, origin);
      if canonical != bucket {
        UnfileRouteBucket(origin, bucket);
      } else {
        WithoutNothing(buckets, left);
      }
      WithoutKeeps(buckets, cleaned, left, target);
      FewerBuckets(s, cleaned, buckets, left, bucketHashes, bucketHashUsed, origin, limits.mappings);
      BucketsStay(s, cleaned, hashes, used, buckets, target, left, away, bucketTTL, now, limits.buckets);
    }

    /** The bucket moves from its route to the target. */
    method Move(bucket: Bucket, origin: Key, target: Key, now: int, ghost s: Snapshot, ghost away: Option<Key>)
      requires Valid() && target !in buckets && Started(s, now) && bucket.routeKey != ""
      requires origin.RouteKey? && target.DiscoveredKey? && origin.major == target.major == bucket.majorKey
      requires Leaves(bucket, origin).Some? ==> away == Some(origin)
      modifies this`buckets, this`bucketHashes, this`bucketHashUsed
      ensures Valid() && Registered(origin, target, bucket, now)
      ensures Framed(s, target, away, origin, now)
      ensures Leaves(bucket, origin).None?
    {
      KeptHasSameKeys(buckets, bucketHashes, bucketHashUsed, limits);
      hide Kept, BucketsAfter, MappingsAfter, RoomFor, Cleaned, Within, SameKeys, FreshLinksStay, Without, Timed;
      hide LinksFollow;
      ghost var cleaned, hashes, used, left := buckets, bucketHashes, bucketHashUsed, Leaves(bucket, origin);
      UnfileRouteBucket(origin, bucket);
      ghost var unfiled := buckets;
      StillTimed(unfiled, cleaned, left, s.times);
      WithoutKeeps(unfiled, cleaned, left, target);
      ghost var roomy := AddBucket(target, bucket, s.times);
      BucketsMoved(s, cleaned, hashes, used, unfiled, roomy, target, bucket, left, away, bucketTTL, now,
                   limits.buckets);
      RoomyLinks(s, cleaned, hashes, used, roomy, bucketHashes, bucketHashUsed, target, bucket, bucketTTL, now);
      StillGone(unfiled, roomy, origin, bucket, s.times, limits.buckets);
      PointAt(origin, target, now, s);
    }

    /** The bucket a registration may mark as used. */
    ghost function FiledThere(target: Key): set<Bucket>
      reads this
    {
      if target in buckets then {buckets[target]} else {}
    }

    lemma StartedLeaves(s: Snapshot, b: Bucket, origin: Key, now: int)
      requires Started(s, now)
      ensures Leaves(b, origin).Some? ==> FiledAt(s.buckets, origin, b)
    {
    }

    method Register(bucket: Bucket, origin: Key, target: Key, now: int) returns (canonical: Bucket)
      requires Valid() && bucket.routeKey != "" && origin.RouteKey? && target.DiscoveredKey?
      requires origin.major == target.major == bucket.majorKey
      modifies this, FiledThere(target)
      ensures Valid() && Registered(origin, target, canonical, now)
      ensures canonical != bucket ==> FiledAt(old(buckets), target, canonical) && canonical.lastUsed == now
      ensures target in old(buckets) && old(Fresh(buckets[target].lastUsed, now)) ==>
                canonical == old(buckets)[target] && canonical.lastUsed == now
      ensures Framed(old(Snap(now)), target, old(Leaves(bucket, origin)), origin, now)
      ensures FiledAt(old(buckets), target, bucket) || !FiledAt(buckets, origin, bucket)
    {
      KeptHasSameKeys(buckets, bucketHashes, bucketHashUsed, limits);
      hide Kept, SameKeys, Framed, Started, Registered;
      ghost var s, away := Snap(now), Leaves(bucket, origin);
      StartCall(now);
      StartedKeeps(s, target, now);
      StartedLeaves(s, bucket, origin, now);
      if target in buckets {
        canonical := Join(bucket, origin, target, now, s, away);
      } else {
        Move(bucket, origin, target, now, s, away);
        canonical := bucket;
      }
    }

    /** Files a bucket under the hash the server named, or joins the bucket already filed there:
        either way its route leads there afterwards. A bucket filed once stays filed once, unless it
        was filed under another hash, where it stays. */
    method RegisterBucketHash(bucket: Bucket, hash: string, now: int) returns (canonical: Bucket)
      requires Valid() && bucket.routeKey != ""
      modifies this, FiledThere(DiscoveredKey(hash, bucket.majorKey))
      ensures var origin, target := RouteKey(bucket.routeKey, bucket.majorKey), DiscoveredKey(hash, bucket.majorKey);
        && Valid() && canonical.majorKey == bucket.majorKey && Registered(origin, target, canonical, now)
        && (canonical != bucket ==> FiledAt(old(buckets), target, canonical) && canonical.lastUsed == now)
        && (target in old(buckets) && old(Fresh(buckets[target].lastUsed, now)) ==>
              canonical == old(buckets)[target] && canonical.lastUsed == now)
        && Framed(old(Snap(now)), target, old(Leaves(bucket, origin)), origin, now)
        && (FiledAt(old(buckets), target, bucket) || !FiledAt(buckets, origin, bucket))
        && (OnlyAt(old(buckets), bucket, target) ==> OnlyAt(buckets, bucket, target))
        && (OnlyAt(old(buckets), bucket, origin) ==> OnlyAt(buckets, bucket, target))
        && (bucketTTL <= 0 && limits.buckets <= 0 && !FiledAt(old(buckets), target, bucket) ==>
              (OnlyAt(buckets, bucket, target) <==> OnlyAtEither(old(buckets), bucket, origin, target)))
    {
      var origin, target := RouteKey(bucket.routeKey, bucket.majorKey), DiscoveredKey(hash, bucket.majorKey);
      KeptHasSameKeys(buckets, bucketHashes, bucketHashUsed, limits);
      ghost var s, away := Snap(now), Leaves(bucket, origin);
      canonical := Register(bucket, origin, target, now);
      KeptHasSameKeys(buckets, bucketHashes, bucketHashUsed, limits);
      hide Kept, SameKeys, BucketsAfter, MappingsAfter, OnlyAt, OnlyAtEither;
      FiledOnce(s, buckets, bucket, origin, target, away, bucketTTL, now, limits.buckets);
      if bucketTTL <= 0 && limits.buckets <= 0 && !FiledAt(s.buckets, target, bucket) {
        FiledOnceIff(s, buckets, bucket, origin, target, away, bucketTTL, now, limits.buckets);
      }
    }
  }

  lemma StaysAbsent(s: Snapshot, after: map<Key, Bucket>, added: Key, away: Option<Key>, key: Key, ttl: int, now: int,
                    limit: int)
    requires s.Matches() && BucketsAfter(s, after, added, away, ttl, now, limit) && key != added && key !in s.buckets
    ensures key !in after
  {
  }

  lemma StaysFiled(s: Snapshot, after: map<Key, Bucket>, added: Key, away: Option<Key>, key: Key, b: Bucket, ttl: int,
                   now: int, limit: int)
    requires s.Matches() && BucketsAfter(s, after, added, away, ttl, now, limit) && ttl <= 0 && limit <= 0
    requires FiledAt(s.buckets, key, b) && key != added && away != Some(key)
    ensures FiledAt(after, key, b)
  {
  }

  /** When the server names a new hash for a bucket it has named before, the bucket stays filed under
      the earlier hash too. */
  method RenamedIsFiledTwice(limiter: RateLimiter, b: Bucket, first: string, second: string, now: int)
    requires limiter.Valid() && limiter.bucketTTL <= 0 && limiter.limits.buckets <= 0 && b.routeKey != ""
    requires first != second && DiscoveredKey(first, b.majorKey) !in limiter.buckets
    requires DiscoveredKey(second, b.majorKey) !in limiter.buckets
    modifies limiter
    ensures limiter.Valid()
    ensures FiledAt(limiter.buckets, DiscoveredKey(first, b.majorKey), b)
    ensures FiledAt(limiter.buckets, DiscoveredKey(second, b.majorKey), b)
  {
    ghost var origin := RouteKey(b.routeKey, b.majorKey);
    ghost var near, far := DiscoveredKey(first, b.majorKey), DiscoveredKey(second, b.majorKey);
    hide Kept, SameKeys, BucketsAfter, MappingsAfter, OnlyAt, OnlyAtEither, RateLimiter.Registered, RateLimiter.Fresh;
    ghost var found, away := limiter.Snap(now), limiter.Leaves(b, origin);
    var canonical := limiter.RegisterBucketHash(b, first, now);
    StaysAbsent(found, limiter.buckets, near, away, far, limiter.bucketTTL, now, limiter.limits.buckets);
    ghost var named, leaves := limiter.Snap(now), limiter.Leaves(b, origin);
    canonical := limiter.RegisterBucketHash(b, second, now);
    StaysFiled(named, limiter.buckets, far, leaves, near, b, limiter.bucketTTL, now, limiter.limits.buckets);
  }
}
