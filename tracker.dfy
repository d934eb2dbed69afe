/**
 * The cloud job tracker (modules/tracker.py): which stored records survive the
 * ninety-day retention window on load, and how newly processed URLs are merged
 * over the surviving records before they are posted back. The HTTP exchange,
 * the environment variable and the clock are parameters: the fetch outcome, a
 * flag saying whether the store URL is set, "now" in microseconds, and one
 * clock reading per new URL.
 */
module Tracker {
  import opened Options
  import opened Seqs

  const MaxJobAgeDays := 90
  const MicrosPerDay := 86_400_000_000

  /** What `datetime.fromisoformat` returns: a naive or a timezone-aware moment, in microseconds. */
  datatype Stamp = Naive(micros: int) | Aware(micros: int)

  /** The `added_at` entry of a stored dict. */
  datatype AddedAt = NoAddedAt | AddedText(text: string) | AddedOther  // missing, a str, any other value

  /** One element of the stored JSON list. */
  datatype Record = DictRecord(url: Option<string>, addedAt: AddedAt) | OtherValue

  /** What `response.json()` gives on a 200 reply. */
  datatype Payload = JsonList(items: seq<Record>) | OtherJson | Undecodable

  datatype Fetch = StoreUnset | Status(code: int, payload: Payload) | NetworkError

  /** The pair `(recent_urls, recent_jobs)`, or the `KeyError` of a kept record without a url. */
  datatype Loaded = Loaded(urls: set<string>, recent: seq<Record>) | UrlMissing

  function Cutoff(now: int): int { now - MaxJobAgeDays * MicrosPerDay }

  /**
   * A record survives when it is a dict with a textual `added_at` that parses to
   * a naive moment strictly after the cutoff; a parse failure, a non-string and
   * an aware moment (whose comparison with the naive cutoff raises) all skip it.
   */
  predicate IsRecent(now: int, parseIso: string -> Option<Stamp>, job: Record) {
    && job.DictRecord?
    && job.addedAt.AddedText?
    && var added := parseIso(job.addedAt.text);
    && added.Some? && added.value.Naive? && added.value.micros > Cutoff(now)
  }

  function RecentTest(now: int, parseIso: string -> Option<Stamp>): Record -> bool {
    (job: Record) => IsRecent(now, parseIso, job)
  }

  predicate HasUrl(job: Record) { job.DictRecord? && job.url.Some? }

  /** `{job['url'] for job in recent_jobs}` paired with the list. */
  function Summarise(recent: seq<Record>): Loaded {
    if forall k :: 0 <= k < |recent| ==> HasUrl(recent[k]) then
      Loaded(set k | 0 <= k < |recent| && HasUrl(recent[k]) :: recent[k].url.value, recent)
    else UrlMissing
  }

  /** `load_processed_jobs` (modules/tracker.py:10-46) as a function of the fetch outcome. */
  function LoadResult(fetch: Fetch, now: int, parseIso: string -> Option<Stamp>): Loaded {
    if fetch.Status? && fetch.code == 200 && fetch.payload.JsonList? then
      Summarise(Filter(fetch.payload.items, RecentTest(now, parseIso)))
    else Loaded({}, [])
  }

  /**
   * `load_processed_jobs`: an unset store, a 404, any other status, a network
   * error, a payload that is not a list and undecodable JSON (a
   * `RequestException` in current `requests`) all give an empty result.
   */
  method LoadProcessedJobs(fetch: Fetch, now: int, parseIso: string -> Option<Stamp>) returns (result: Loaded)
    ensures result == LoadResult(fetch, now, parseIso)
  {
    if fetch.StoreUnset? || fetch.NetworkError? {
      return Loaded({}, []);
    }
    if fetch.code != 200 {
      return Loaded({}, []);
    }
    if !fetch.payload.JsonList? {
      return Loaded({}, []);
    }
    var jobRecords := fetch.payload.items;
    var cutoffDate := Cutoff(now);
    var recentJobs: seq<Record> := [];
    for i := 0 to |jobRecords|
      invariant recentJobs == Filter(jobRecords[..i], RecentTest(now, parseIso))
    {
      var job := jobRecords[i];
      FilterStep(jobRecords, i, RecentTest(now, parseIso));
      if job.DictRecord? && !job.addedAt.NoAddedAt? {
        if job.addedAt.AddedText? {
          var addedDate := parseIso(job.addedAt.text);
          if addedDate.Some? && addedDate.value.Naive? && addedDate.value.micros > cutoffDate {
            recentJobs := recentJobs + [job];
          }
        }
      }
    }
    assert jobRecords[..|jobRecords|] == jobRecords;
    result := Summarise(recentJobs);
  }

  /**
   * On a successful load the kept records are exactly the stored ones that are
   * dicts with an `added_at` parsing to a moment strictly later than now minus
   * ninety days, in stored order.
   */
  lemma LoadKeepsExactlyRecent(items: seq<Record>, now: int, parseIso: string -> Option<Stamp>)
    requires LoadResult(Status(200, JsonList(items)), now, parseIso).Loaded?
    ensures var recent := LoadResult(Status(200, JsonList(items)), now, parseIso).recent;
      && IsSubsequence(recent, items)
      && forall r :: r in recent <==>
           (&& r in items && r.DictRecord? && r.addedAt.AddedText?
            && parseIso(r.addedAt.text).Some? && parseIso(r.addedAt.text).value.Naive?
            && parseIso(r.addedAt.text).value.micros > now - 90 * 86_400_000_000)
  {
    var p := RecentTest(now, parseIso);
    FilterIsSubsequence(items, p);
    forall r ensures r in Filter(items, p) <==> r in items && p(r) {
      FilterMembership(items, p, r);
    }
  }

  /** The returned URL set is the set of `url` fields of the kept records. */
  lemma UrlSetOfKeptRecords(fetch: Fetch, now: int, parseIso: string -> Option<Stamp>)
    requires LoadResult(fetch, now, parseIso).Loaded?
    ensures var l := LoadResult(fetch, now, parseIso);
      forall u :: u in l.urls <==> exists r :: r in l.recent && r.DictRecord? && r.url == Some(u)
  {
    var l := LoadResult(fetch, now, parseIso);
    forall u ensures u in l.urls <==> exists r :: r in l.recent && r.DictRecord? && r.url == Some(u) {
      if u in l.urls {
        var k :| 0 <= k < |l.recent| && HasUrl(l.recent[k]) && l.recent[k].url.value == u;
        assert l.recent[k] in l.recent;
      }
      if exists r :: r in l.recent && r.DictRecord? && r.url == Some(u) {
        var r :| r in l.recent && r.DictRecord? && r.url == Some(u);
        var k :| 0 <= k < |l.recent| && l.recent[k] == r;
        assert HasUrl(l.recent[k]);
      }
    }
  }

  /** A kept record without a url is the only way a load fails. */
  lemma LoadFailsOnlyOnMissingUrl(items: seq<Record>, now: int, parseIso: string -> Option<Stamp>)
    ensures LoadResult(Status(200, JsonList(items)), now, parseIso).UrlMissing? <==>
      exists k :: 0 <= k < |Filter(items, RecentTest(now, parseIso))| && !HasUrl(Filter(items, RecentTest(now, parseIso))[k])
  {
    var recent := Filter(items, RecentTest(now, parseIso));
    var l := LoadResult(Status(200, JsonList(items)), now, parseIso);
    assert l == Summarise(recent);
    if l.UrlMissing? {
      var k :| 0 <= k < |recent| && !HasUrl(recent[k]);
      assert 0 <= k < |Filter(items, RecentTest(now, parseIso))| && !HasUrl(Filter(items, RecentTest(now, parseIso))[k]);
      assert exists k :: 0 <= k < |Filter(items, RecentTest(now, parseIso))| && !HasUrl(Filter(items, RecentTest(now, parseIso))[k]);
      assert LoadResult(Status(200, JsonList(items)), now, parseIso).UrlMissing?;
    } else {
      assert forall k :: 0 <= k < |recent| ==> HasUrl(recent[k]);
    }
  }

  /** A 200 reply whose payload is not a list, or not JSON at all, yields nothing. */
  lemma NonListPayloadIsEmpty(payload: Payload, now: int, parseIso: string -> Option<Stamp>)
    requires !payload.JsonList?
    ensures LoadResult(Status(200, payload), now, parseIso) == Loaded({}, [])
  {
  }

  /**
   * A stored record whose `added_at` does not parse (or is not a string, or is
   * aware) is skipped: the load comes out as if it were not stored at all.
   */
  lemma UnparsableRecordIsSkipped(a: seq<Record>, r: Record, b: seq<Record>, now: int,
                                  parseIso: string -> Option<Stamp>)
    requires r.DictRecord?
    requires !r.addedAt.AddedText? || parseIso(r.addedAt.text).None? || parseIso(r.addedAt.text).value.Aware?
    ensures LoadResult(Status(200, JsonList(a + [r] + b)), now, parseIso)
         == LoadResult(Status(200, JsonList(a + b)), now, parseIso)
  {
    var p := RecentTest(now, parseIso);
    FilterConcat(a + [r], b, p);
    FilterConcat(a, [r], p);
    FilterConcat(a, b, p);
    assert !p(r);
    assert [r][..0] == [];
    assert Filter([r], p) == [];
    assert Filter(a + [r] + b, p) == Filter(a, p) + Filter(b, p);
    assert Filter(a + [r] + b, p) == Filter(a + b, p);
  }

  // ---------------------------------------------------------------------------
  // update_processed_jobs

  /** `{'url': url, 'added_at': datetime.now().isoformat()}`. */
  function NewRecord(url: string, stamp: string): Record { DictRecord(Some(url), AddedText(stamp)) }

  /** A Python dict from url to record: the keys in insertion order and the mapping. */
  datatype Dict = Dict(keys: seq<string>, vals: map<string, Record>)

  predicate Distinct(s: seq<string>) { forall i, j :: 0 <= i < j < |s| ==> s[i] != s[j] }

  predicate WellFormed(d: Dict) {
    && Distinct(d.keys)
    && (forall k :: k in d.vals ==> k in d.keys)
    && (forall i :: 0 <= i < |d.keys| ==> d.keys[i] in d.vals)
  }

  /** `d[k] = v`: an existing key keeps its place, a new one goes to the end. */
  function Insert(d: Dict, k: string, v: Record): Dict {
    if k in d.vals then Dict(d.keys, d.vals[k := v]) else Dict(d.keys + [k], d.vals[k := v])
  }

  /** The dict after inserting the pairs one by one, from an empty dict. */
  function Build(es: seq<(string, Record)>): Dict {
    if es == [] then Dict([], map[]) else Insert(Build(es[..|es| - 1]), es[|es| - 1].0, es[|es| - 1].1)
  }

  /** `list(d.values())`. */
  function Values(d: Dict): seq<Record>
    requires forall i :: 0 <= i < |d.keys| ==> d.keys[i] in d.vals
  {
    seq(|d.keys|, i requires 0 <= i < |d.keys| => d.vals[d.keys[i]])
  }

  function UrlOf(job: Record): string
    requires HasUrl(job)
  {
    job.url.value
  }

  function UrlsOf(existing: seq<Record>): seq<string>
    requires forall k :: 0 <= k < |existing| ==> HasUrl(existing[k])
  {
    seq(|existing|, k requires 0 <= k < |existing| => UrlOf(existing[k]))
  }

  /** The insertions `update_processed_jobs` makes, in order: the stored records, then the new URLs. */
  function Entries(existing: seq<Record>, newUrls: seq<string>, stamps: seq<string>): seq<(string, Record)>
    requires forall k :: 0 <= k < |existing| ==> HasUrl(existing[k])
    requires |stamps| == |newUrls|
  {
    seq(|existing|, k requires 0 <= k < |existing| => (UrlOf(existing[k]), existing[k]))
      + seq(|newUrls|, j requires 0 <= j < |newUrls| => (newUrls[j], NewRecord(newUrls[j], stamps[j])))
  }

  lemma EntryAt(existing: seq<Record>, newUrls: seq<string>, stamps: seq<string>, i: nat)
    requires forall k :: 0 <= k < |existing| ==> HasUrl(existing[k])
    requires |stamps| == |newUrls|
    requires i < |existing| + |newUrls|
    ensures |Entries(existing, newUrls, stamps)| == |existing| + |newUrls|
    ensures i < |existing| ==> Entries(existing, newUrls, stamps)[i] == (UrlOf(existing[i]), existing[i])
    ensures i >= |existing| ==>
      var j := i - |existing|;
      Entries(existing, newUrls, stamps)[i] == (newUrls[j], NewRecord(newUrls[j], stamps[j]))
  {
  }

  function KeysOf(es: seq<(string, Record)>): seq<string> {
    seq(|es|, i requires 0 <= i < |es| => es[i].0)
  }

  /** The first occurrence of each element, in order. */
  function Dedup(s: seq<string>): (r: seq<string>)
    ensures Distinct(r)
    ensures forall x :: x in r <==> x in s
  {
    if s == [] then []
    else
      var d := Dedup(s[..|s| - 1]);
      assert forall x :: x in s <==> x in s[..|s| - 1] || x == s[|s| - 1] by {
        assert s == s[..|s| - 1] + [s[|s| - 1]];
      }
      if s[|s| - 1] in d then d else d + [s[|s| - 1]]
  }

  /** Entry `i` is the last one with its key. */
  predicate LastWithKey(es: seq<(string, Record)>, i: int)
    requires 0 <= i < |es|
  {
    forall j :: i < j < |es| ==> es[j].0 != es[i].0
  }

  lemma BuildStep(es: seq<(string, Record)>, i: nat)
    requires i < |es|
    ensures Build(es[..i + 1]) == Insert(Build(es[..i]), es[i].0, es[i].1)
  {
    assert es[..i + 1][..i] == es[..i];
  }

  /** Building keeps the dict well formed: distinct keys, exactly the mapped ones. */
  lemma {:induction false} BuildWellFormed(es: seq<(string, Record)>)
    ensures WellFormed(Build(es))
  {
    if es != [] {
      var n := |es|;
      var d0 := Build(es[..n - 1]);
      var k := es[n - 1].0;
      BuildWellFormed(es[..n - 1]);
      if k !in d0.vals {
        assert forall i :: 0 <= i < |d0.keys| ==> d0.keys[i] != k;
      }
    }
  }

  /** The keys of the built dict are the first occurrences of the inserted keys, in order. */
  lemma {:induction false} BuildKeys(es: seq<(string, Record)>)
    ensures WellFormed(Build(es))
    ensures Build(es).keys == Dedup(KeysOf(es))
  {
    BuildWellFormed(es);
    if es != [] {
      var n := |es|;
      var init := es[..n - 1];
      var d0 := Build(init);
      var k := es[n - 1].0;
      BuildKeys(init);
      assert KeysOf(es) == KeysOf(init) + [k];
      assert KeysOf(es)[..n - 1] == KeysOf(init);
      assert k in d0.vals <==> k in d0.keys;
      assert Dedup(KeysOf(es)) == if k in Dedup(KeysOf(init)) then Dedup(KeysOf(init)) else Dedup(KeysOf(init)) + [k];
    }
  }

  /** Every value of the built dict was inserted under its key. */
  lemma {:induction false} BuildValuesInserted(es: seq<(string, Record)>)
    ensures forall k :: k in Build(es).vals ==> exists i :: 0 <= i < |es| && es[i] == (k, Build(es).vals[k])
  {
    if es != [] {
      var n := |es|;
      var init := es[..n - 1];
      BuildValuesInserted(init);
      var d0 := Build(init);
      var d := Build(es);
      forall key | key in d.vals ensures exists i :: 0 <= i < n && es[i] == (key, d.vals[key]) {
        if key == es[n - 1].0 {
          assert es[n - 1] == (key, d.vals[key]);
        } else {
          assert key in d0.vals && d.vals[key] == d0.vals[key];
          var i :| 0 <= i < |init| && init[i] == (key, d0.vals[key]);
          assert es[i] == init[i];
        }
      }
    }
  }

  /** The last insertion under a key is the value that stays. */
  lemma {:induction false} BuildLastWins(es: seq<(string, Record)>)
    ensures forall i :: 0 <= i < |es| && LastWithKey(es, i) ==> es[i].0 in Build(es).vals && Build(es).vals[es[i].0] == es[i].1
  {
    if es != [] {
      var n := |es|;
      var init := es[..n - 1];
      BuildLastWins(init);
      forall i | 0 <= i < n && LastWithKey(es, i) ensures es[i].0 in Build(es).vals && Build(es).vals[es[i].0] == es[i].1 {
        if i < n - 1 {
          assert init[i] == es[i];
          assert LastWithKey(init, i) by {
            forall j | i < j < |init| ensures init[j].0 != init[i].0 {
              assert init[j] == es[j];
            }
          }
        }
      }
    }
  }

  /** The dict `update_processed_jobs` builds before posting its values. */
  function Merged(existing: seq<Record>, newUrls: seq<string>, stamps: seq<string>): Dict
    requires forall k :: 0 <= k < |existing| ==> HasUrl(existing[k])
    requires |stamps| == |newUrls|
  {
    Build(Entries(existing, newUrls, stamps))
  }

  /**
   * `update_processed_jobs` (modules/tracker.py:48-69): the list it posts, or
   * `None` when the store URL is unset and nothing is posted. `stamps[j]` is the
   * clock reading taken for `newlyProcessedUrls[j]`.
   */
  method UpdateProcessedJobs(storeSet: bool, newlyProcessedUrls: seq<string>, existingRecentJobs: seq<Record>,
                             stamps: seq<string>) returns (posted: Option<seq<Record>>)
    requires forall k :: 0 <= k < |existingRecentJobs| ==> HasUrl(existingRecentJobs[k])
    requires |stamps| == |newlyProcessedUrls|
    ensures !storeSet ==> posted.None?
    ensures storeSet ==>
      var d := Merged(existingRecentJobs, newlyProcessedUrls, stamps);
      WellFormed(d) && posted == Some(Values(d))
  {
    if !storeSet {
      return None;
    }
    var keys: seq<string> := [];
    var processedJobsMap: map<string, Record> := map[];
    for i := 0 to |existingRecentJobs|
      invariant keys == Stage(existingRecentJobs, newlyProcessedUrls, stamps, i).keys
      invariant processedJobsMap == Stage(existingRecentJobs, newlyProcessedUrls, stamps, i).vals
    {
      var job := existingRecentJobs[i];
      var url := UrlOf(job);
      if url !in processedJobsMap {
        keys := keys + [url];
      }
      processedJobsMap := processedJobsMap[url := job];
    }
    var m := |existingRecentJobs|;
    for j := 0 to |newlyProcessedUrls|
      invariant keys == Stage(existingRecentJobs, newlyProcessedUrls, stamps, m + j).keys
      invariant processedJobsMap == Stage(existingRecentJobs, newlyProcessedUrls, stamps, m + j).vals
    {
      var url := newlyProcessedUrls[j];
      if url !in processedJobsMap {
        keys := keys + [url];
      }
      processedJobsMap := processedJobsMap[url := NewRecord(url, stamps[j])];
    }
    BuiltIsMerged(existingRecentJobs, newlyProcessedUrls, stamps, keys, processedJobsMap);
    posted := Some(Values(Dict(keys, processedJobsMap)));
  }

  /** The `i`-th pair the two loops insert: a stored record under its url, then a fresh record per new url. */
  function EntryKey(existing: seq<Record>, newUrls: seq<string>, i: nat): string
    requires forall k :: 0 <= k < |existing| ==> HasUrl(existing[k])
    requires i < |existing| + |newUrls|
  {
    if i < |existing| then UrlOf(existing[i]) else newUrls[i - |existing|]
  }

  function EntryRecord(existing: seq<Record>, newUrls: seq<string>, stamps: seq<string>, i: nat): Record
    requires |stamps| == |newUrls|
    requires i < |existing| + |newUrls|
  {
    if i < |existing| then existing[i] else NewRecord(newUrls[i - |existing|], stamps[i - |existing|])
  }

  /** The dict after the first `i` insertions of the two loops. */
  function Stage(existing: seq<Record>, newUrls: seq<string>, stamps: seq<string>, i: nat): Dict
    requires forall k :: 0 <= k < |existing| ==> HasUrl(existing[k])
    requires |stamps| == |newUrls|
    requires i <= |existing| + |newUrls|
  {
    if i == 0 then Dict([], map[])
    else Insert(Stage(existing, newUrls, stamps, i - 1),
                EntryKey(existing, newUrls, i - 1), EntryRecord(existing, newUrls, stamps, i - 1))
  }

  lemma {:induction false} StageIsBuild(existing: seq<Record>, newUrls: seq<string>, stamps: seq<string>, i: nat)
    requires forall k :: 0 <= k < |existing| ==> HasUrl(existing[k])
    requires |stamps| == |newUrls|
    requires i <= |existing| + |newUrls|
    ensures Stage(existing, newUrls, stamps, i) == Build(Entries(existing, newUrls, stamps)[..i])
  {
    if i > 0 {
      var es := Entries(existing, newUrls, stamps);
      StageIsBuild(existing, newUrls, stamps, i - 1);
      EntryAt(existing, newUrls, stamps, i - 1);
      BuildStep(es, i - 1);
    }
  }

  /** After both loops the dict is the merge, and it is well formed. */
  lemma BuiltIsMerged(existing: seq<Record>, newUrls: seq<string>, stamps: seq<string>,
                      keys: seq<string>, vals: map<string, Record>)
    requires forall k :: 0 <= k < |existing| ==> HasUrl(existing[k])
    requires |stamps| == |newUrls|
    requires keys == Stage(existing, newUrls, stamps, |existing| + |newUrls|).keys
    requires vals == Stage(existing, newUrls, stamps, |existing| + |newUrls|).vals
    ensures Dict(keys, vals) == Merged(existing, newUrls, stamps)
    ensures WellFormed(Dict(keys, vals))
  {
    StageIsMerged(existing, newUrls, stamps);
    BuildWellFormed(Entries(existing, newUrls, stamps));
  }

  lemma StageIsMerged(existing: seq<Record>, newUrls: seq<string>, stamps: seq<string>)
    requires forall k :: 0 <= k < |existing| ==> HasUrl(existing[k])
    requires |stamps| == |newUrls|
    ensures Stage(existing, newUrls, stamps, |existing| + |newUrls|) == Merged(existing, newUrls, stamps)
  {
    var es := Entries(existing, newUrls, stamps);
    var n := |existing| + |newUrls|;
    StageIsBuild(existing, newUrls, stamps, n);
    assert es[..n] == es;
  }

  /** Each inserted record is a dict carrying its own key as `url`. */
  predicate Keyed(es: seq<(string, Record)>) {
    forall i :: 0 <= i < |es| ==> HasUrl(es[i].1) && UrlOf(es[i].1) == es[i].0
  }

  lemma EntriesAreKeyed(existing: seq<Record>, newUrls: seq<string>, stamps: seq<string>)
    requires forall k :: 0 <= k < |existing| ==> HasUrl(existing[k])
    requires |stamps| == |newUrls|
    ensures Keyed(Entries(existing, newUrls, stamps))
    ensures KeysOf(Entries(existing, newUrls, stamps)) == UrlsOf(existing) + newUrls
  {
    var es := Entries(existing, newUrls, stamps);
    forall i | 0 <= i < |es| ensures HasUrl(es[i].1) && UrlOf(es[i].1) == es[i].0 && KeysOf(es)[i] == (UrlsOf(existing) + newUrls)[i] {
      EntryAt(existing, newUrls, stamps, i);
    }
  }

  /** The URL of each posted record, in order. */
  function PostedUrls(posted: seq<Record>): seq<Option<string>> {
    seq(|posted|, i requires 0 <= i < |posted| => if posted[i].DictRecord? then posted[i].url else None)
  }

  /**
   * The posted list has one record per URL, in dict order: the stored URLs by
   * their first position, then the new URLs not stored before by first
   * appearance; so no URL occurs twice.
   */
  lemma PostedOrderAndNoDuplicates(existing: seq<Record>, newUrls: seq<string>, stamps: seq<string>)
    requires forall k :: 0 <= k < |existing| ==> HasUrl(existing[k])
    requires |stamps| == |newUrls|
    ensures var d := Merged(existing, newUrls, stamps);
      WellFormed(d) &&
      var urls := PostedUrls(Values(d));
      var order := Dedup(UrlsOf(existing) + newUrls);
      && |urls| == |order|
      && (forall i :: 0 <= i < |urls| ==> urls[i] == Some(order[i]))
      && (forall i, j :: 0 <= i < j < |urls| ==> urls[i] != urls[j])
  {
    var es := Entries(existing, newUrls, stamps);
    BuildKeys(es);
    BuildValuesInserted(es);
    EntriesAreKeyed(existing, newUrls, stamps);
    var d := Build(es);
    var urls := PostedUrls(Values(d));
    forall i | 0 <= i < |d.keys| ensures urls[i] == Some(d.keys[i]) {
      var k := d.keys[i];
      var e :| 0 <= e < |es| && es[e] == (k, d.vals[k]);
      assert HasUrl(es[e].1);
    }
  }

  /**
   * Every newly processed URL is posted exactly once, with the stamp taken at its
   * last occurrence in the list (modules/tracker.py:58-59).
   */
  lemma NewUrlPostedOnce(existing: seq<Record>, newUrls: seq<string>, stamps: seq<string>, j: nat)
    requires forall k :: 0 <= k < |existing| ==> HasUrl(existing[k])
    requires |stamps| == |newUrls|
    requires j < |newUrls| && forall j' :: j < j' < |newUrls| ==> newUrls[j'] != newUrls[j]
    ensures var d := Merged(existing, newUrls, stamps);
      WellFormed(d) &&
      var posted := Values(d);
      && (exists i :: 0 <= i < |posted| && posted[i] == NewRecord(newUrls[j], stamps[j]))
      && (forall i, i' :: 0 <= i < i' < |posted| ==> PostedUrls(posted)[i] != PostedUrls(posted)[i'])
  {
    var es := Entries(existing, newUrls, stamps);
    var e := |existing| + j;
    BuildKeys(es);
    BuildLastWins(es);
    PostedOrderAndNoDuplicates(existing, newUrls, stamps);
    EntryAt(existing, newUrls, stamps, e);
    forall e' | e < e' < |es| ensures es[e'].0 != es[e].0 {
      EntryAt(existing, newUrls, stamps, e');
    }
    assert LastWithKey(es, e);
    var d := Build(es);
    var i :| 0 <= i < |d.keys| && d.keys[i] == newUrls[j];
    assert Values(d)[i] == NewRecord(newUrls[j], stamps[j]);
  }

  /**
   * A stored record whose URL is not among the new ones is posted unchanged,
   * provided it is the last stored record with that URL (the dict built from
   * the stored list keeps the last one).
   */
  lemma StoredRecordCarriedOver(existing: seq<Record>, newUrls: seq<string>, stamps: seq<string>, k: nat)
    requires forall k :: 0 <= k < |existing| ==> HasUrl(existing[k])
    requires |stamps| == |newUrls|
    requires k < |existing| && UrlOf(existing[k]) !in newUrls
    requires forall k' :: k < k' < |existing| ==> UrlOf(existing[k']) != UrlOf(existing[k])
    ensures var d := Merged(existing, newUrls, stamps);
      WellFormed(d) && existing[k] in Values(d)
  {
    var es := Entries(existing, newUrls, stamps);
    BuildKeys(es);
    BuildLastWins(es);
    EntryAt(existing, newUrls, stamps, k);
    forall e | k < e < |es| ensures es[e].0 != es[k].0 {
      EntryAt(existing, newUrls, stamps, e);
    }
    assert LastWithKey(es, k);
    var d := Build(es);
    var i :| 0 <= i < |d.keys| && d.keys[i] == UrlOf(existing[k]);
    assert Values(d)[i] == existing[k];
  }
}
