/** The fetch and reconstruction logic of the searcher: the retrying request,
    cursor pagination over the asset listing, the blueprint lookup and split,
    the search by blueprint and the replay of an asset's transfer history.
    Every upstream answer is a parameter: a sequence of status codes, a
    sequence of pages, a function from token to asset body, a list of
    transfer bodies. */
module Searches {
  import opened Common
  import opened Models
  import opened Deserializers
  import Store

  // ---------------------------------------------------------------------
  // Retrying request
  // ---------------------------------------------------------------------

  /** The first wait, in milliseconds (0.2 seconds). */
  const InitialBackoffMs: nat := 200

  /** Statuses that make the request be issued again: rate limiting and
      server errors. */
  predicate Retryable(status: int)
  {
    status == 429 || (500 <= status && status <= 599)
  }

  function Pow2(k: nat): (p: nat)
    ensures p >= 1
  {
    if k == 0 then 1 else 2 * Pow2(k - 1)
  }

  /** The waits before the first `n` retries: 200 ms, then each twice
      the one before. */
  function BackoffSchedule(n: nat): (waits: seq<nat>)
    ensures |waits| == n
    ensures n > 0 ==> waits[0] == InitialBackoffMs
    ensures forall k :: 0 < k < n ==> waits[k] == 2 * waits[k - 1]
    ensures forall k :: 0 <= k < n ==> waits[k] == InitialBackoffMs * Pow2(k)
  {
    if n == 0 then [] else BackoffSchedule(n - 1) + [InitialBackoffMs * Pow2(n - 1)]
  }

  /** The position of the first status that is not retried, or the length
      of the stream when every status in it is retried. */
  function FinalIndex(statuses: seq<int>): (n: nat)
    ensures n <= |statuses|
    ensures forall j :: 0 <= j < n ==> Retryable(statuses[j])
    ensures n < |statuses| ==> !Retryable(statuses[n])
  {
    if statuses == [] then 0
    else if !Retryable(statuses[0]) then 0
    else 1 + FinalIndex(statuses[1..])
  }

  /** What the retrying request hands back: the first response whose status
      is not retried, or nothing when the given stream of statuses ends
      while the request would still be retried. */
  datatype RequestOutcome = Response(status: int) | NoFinalResponse

  /** `rate_limited_request`: issues the request, whose successive answers are
      `statuses`, until an answer is neither 429 nor 5xx, sleeping before each
      retry for a doubling wait. Returns the outcome, the number of requests
      issued and the waits slept, in milliseconds. */
  method RateLimitedRequest(statuses: seq<int>) returns (outcome: RequestOutcome, attempts: nat, sleeps: seq<nat>)
    ensures statuses != [] ==> attempts >= 1
    ensures outcome.Response? ==> !Retryable(outcome.status)
    ensures var n := FinalIndex(statuses);
            n < |statuses| ==>
              outcome == Response(statuses[n]) && attempts == n + 1 && sleeps == BackoffSchedule(n)
    ensures var n := FinalIndex(statuses);
            n == |statuses| ==>
              outcome == NoFinalResponse && attempts == |statuses| && sleeps == BackoffSchedule(n)
  {
    var backoff: nat := InitialBackoffMs;
    var status := 200;
    var firstRun := true;
    attempts, sleeps := 0, [];
    while firstRun || Retryable(status)
      invariant attempts <= |statuses|
      invariant firstRun <==> attempts == 0
      invariant forall j :: 0 <= j < attempts - 1 ==> Retryable(statuses[j])
      invariant attempts > 0 ==> status == statuses[attempts - 1]
      invariant |sleeps| == if attempts > 0 && !Retryable(status) then attempts - 1 else attempts
      invariant sleeps == BackoffSchedule(|sleeps|)
      invariant backoff == InitialBackoffMs * Pow2(|sleeps|)
      decreases |statuses| - attempts
    {
      firstRun := false;
      if attempts == |statuses| {
        outcome := NoFinalResponse;
        return;
      }
      status := statuses[attempts];
      attempts := attempts + 1;
      if status == 429 {
        sleeps, backoff := sleeps + [backoff], backoff * 2;
      } else if 500 <= status <= 599 {
        sleeps, backoff := sleeps + [backoff], backoff * 2;
      }
    }
    outcome := Response(status);
  }

  // ---------------------------------------------------------------------
  // Cursor pagination over the asset listing
  // ---------------------------------------------------------------------

  /** One page of the asset listing: its asset bodies, the `remaining` count
      and the cursor of the next page. */
  datatype Page = Page(records: seq<AssetDict>, remaining: int, cursor: Option<string>)

  /** The query parameters of one listing request. */
  datatype AssetQuery = AssetQuery(name: string, cursor: Option<string>)

  /** In test mode the loop stops once this many assets are collected. */
  const TestModeCap: nat := 100

  /** The number of asset bodies on the first `p` pages. */
  function CountUpTo(pages: seq<Page>, p: nat): nat
    requires p <= |pages|
  {
    if p == 0 then 0 else CountUpTo(pages, p - 1) + |pages[p - 1].records|
  }

  /** The asset bodies of the first `p` pages, in page order. */
  function RecordsUpTo(pages: seq<Page>, p: nat): (ds: seq<AssetDict>)
    requires p <= |pages|
    ensures |ds| == CountUpTo(pages, p)
  {
    if p == 0 then [] else RecordsUpTo(pages, p - 1) + pages[p - 1].records
  }

  /** The loop ends after page `p`: it reports nothing remaining, or test
      mode has collected at least the cap. */
  predicate StopsAfter(pages: seq<Page>, p: nat, testMode: bool)
    requires p < |pages|
  {
    pages[p].remaining <= 0 || (testMode && CountUpTo(pages, p + 1) >= TestModeCap)
  }

  /** The first page at or after `from` after which the loop ends, or the
      length of the stream when no page ends it. */
  function LastPageFrom(pages: seq<Page>, testMode: bool, from: nat): (n: nat)
    requires from <= |pages|
    ensures from <= n <= |pages|
    ensures forall q :: from <= q < n ==> !StopsAfter(pages, q, testMode)
    ensures n < |pages| ==> StopsAfter(pages, n, testMode)
    decreases |pages| - from
  {
    if from == |pages| then from
    else if StopsAfter(pages, from, testMode) then from
    else LastPageFrom(pages, testMode, from + 1)
  }

  function LastPage(pages: seq<Page>, testMode: bool): nat
  {
    LastPageFrom(pages, testMode, 0)
  }

  /** The first page after which the loop ends is the last page read. */
  lemma LastPageIs(pages: seq<Page>, testMode: bool, k: nat)
    requires k < |pages| && StopsAfter(pages, k, testMode)
    requires forall q :: 0 <= q < k ==> !StopsAfter(pages, q, testMode)
    ensures LastPage(pages, testMode) == k && PagesRead(pages, testMode) == k + 1
  {
  }

  /** The number of pages the loop reads. */
  function PagesRead(pages: seq<Page>, testMode: bool): (k: nat)
    ensures k <= |pages|
  {
    var n := LastPage(pages, testMode);
    if n < |pages| then n + 1 else |pages|
  }

  /** The requests the loop issues for `pages`: the first without a cursor,
      each later one with the cursor of the page before. */
  ghost predicate QueriesFollowCursors(requests: seq<AssetQuery>, name: string, pages: seq<Page>)
    requires |requests| <= |pages| + 1
  {
    forall j :: 0 <= j < |requests| ==>
      requests[j] == AssetQuery(name, if j == 0 then None else pages[j - 1].cursor)
  }

  lemma QueriesSnoc(requests: seq<AssetQuery>, name: string, pages: seq<Page>, cursor: Option<string>)
    requires |requests| <= |pages| && QueriesFollowCursors(requests, name, pages)
    requires cursor == if requests == [] then None else pages[|requests| - 1].cursor
    ensures QueriesFollowCursors(requests + [AssetQuery(name, cursor)], name, pages)
  {
  }

  lemma CreateAssetsSnoc(rows: map<string, Asset>, ds: seq<AssetDict>, d: AssetDict)
    ensures var b := CreateAssets(rows, ds);
            var u := Store.InsertOnce(b.table, DictKey(d), NewAsset(d));
            CreateAssets(rows, ds + [d]) == Store.Batch(u.table, b.records + [u.record])
  {
    assert AssetEntries(ds + [d])[..|ds|] == AssetEntries(ds);
  }

  lemma CreateAssetsConcat(rows: map<string, Asset>, xs: seq<AssetDict>, ys: seq<AssetDict>)
    ensures var a := CreateAssets(rows, xs);
            var b := CreateAssets(a.table, ys);
            CreateAssets(rows, xs + ys) == Store.Batch(b.table, a.records + b.records)
  {
    var es := AssetEntries(xs + ys);
    var both := AssetEntries(xs) + AssetEntries(ys);
    forall i | 0 <= i < |es| ensures es[i] == both[i] {
      if i < |xs| {
        assert (xs + ys)[i] == xs[i];
      } else {
        assert (xs + ys)[i] == ys[i - |xs|];
      }
    }
    assert es == both;
    Store.InsertAllAppend(rows, AssetEntries(xs), AssetEntries(ys));
  }

  /** Storing one more page extends what the run has collected by that
      page's assets. */
  lemma CollectedStep(rows0: map<string, Asset>, pages: seq<Page>, p: nat,
                      mid: Store.Batch<string, Asset>, next: Store.Batch<string, Asset>)
    requires p < |pages|
    requires mid == CreateAssets(rows0, RecordsUpTo(pages, p))
    requires next == CreateAssets(mid.table, pages[p].records)
    ensures Store.Batch(next.table, mid.records + next.records) == CreateAssets(rows0, RecordsUpTo(pages, p + 1))
  {
    CreateAssetsConcat(rows0, RecordsUpTo(pages, p), pages[p].records);
  }

  /** `[await create_asset(d) for d in ds]`: the bodies stored in order. */
  method CreateAssetList(assets: Store.Table<string, Asset>, ds: seq<AssetDict>) returns (created: seq<Asset>)
    modifies assets
    ensures Store.Batch(assets.rows, created) == CreateAssets(old(assets.rows), ds)
  {
    created := [];
    var i := 0;
    while i < |ds|
      invariant 0 <= i <= |ds|
      invariant Store.Batch(assets.rows, created) == CreateAssets(old(assets.rows), ds[..i])
    {
      var a := CreateAsset(assets, ds[i]);
      CreateAssetsSnoc(old(assets.rows), ds[..i], ds[i]);
      assert ds[..i + 1] == ds[..i] + [ds[i]];
      created := created + [a];
      i := i + 1;
    }
    assert ds[..i] == ds;
  }

  /** One turn of the pagination loop: the assets of page `p` stored in
      order and appended to those collected from the pages before. */
  method StorePage(assets: Store.Table<string, Asset>, ghost rows0: map<string, Asset>, pages: seq<Page>, p: nat, all: seq<Asset>)
    returns (all': seq<Asset>)
    requires p < |pages|
    requires Store.Batch(assets.rows, all) == CreateAssets(rows0, RecordsUpTo(pages, p))
    modifies assets
    ensures Store.Batch(assets.rows, all') == CreateAssets(rows0, RecordsUpTo(pages, p + 1))
  {
    ghost var mid := Store.Batch(assets.rows, all);
    var created := CreateAssetList(assets, pages[p].records);
    CollectedStep(rows0, pages, p, mid, Store.Batch(assets.rows, created));
    all' := all + created;
  }

  /** `get_asset_list_by_metadata`: reads the listing page by page, passing
      back each cursor, storing every asset body with `create_asset`, until a
      page reports nothing remaining (or, in test mode, the cap is reached).
      `complete` is false when the given pages end before that. */
  method GetAssetListByMetadata(assets: Store.Table<string, Asset>, name: string, pages: seq<Page>, testMode: bool)
    returns (all: seq<Asset>, requests: seq<AssetQuery>, complete: bool)
    modifies assets
    ensures complete <==> LastPage(pages, testMode) < |pages|
    ensures |requests| == if complete then PagesRead(pages, testMode) else |pages| + 1
    ensures QueriesFollowCursors(requests, name, pages)
    ensures var b := CreateAssets(old(assets.rows), RecordsUpTo(pages, PagesRead(pages, testMode)));
            assets.rows == b.table && all == b.records
  {
    ghost var rows0 := assets.rows;
    var remaining := 1;
    var cursor: Option<string> := None;
    all, requests := [], [];
    var p := 0;
    while remaining > 0
      invariant 0 <= p <= |pages| && |requests| == p
      invariant QueriesFollowCursors(requests, name, pages)
      invariant p == 0 ==> cursor == None && remaining == 1
      invariant p > 0 ==> cursor == pages[p - 1].cursor && remaining == pages[p - 1].remaining
      invariant p > 0 ==> LastPage(pages, testMode) == LastPageFrom(pages, testMode, p - 1)
      invariant p > 0 ==> !(testMode && CountUpTo(pages, p) >= TestModeCap)
      invariant Store.Batch(assets.rows, all) == CreateAssets(rows0, RecordsUpTo(pages, p))
      decreases |pages| - p
    {
      QueriesSnoc(requests, name, pages, cursor);
      requests := requests + [AssetQuery(name, cursor)];
      if p == |pages| {
        complete := false;
        assert p > 0 ==> !StopsAfter(pages, p - 1, testMode);
        assert LastPage(pages, testMode) == |pages| && PagesRead(pages, testMode) == p;
        return;
      }
      remaining, cursor := pages[p].remaining, pages[p].cursor;
      all := StorePage(assets, rows0, pages, p, all);
      p := p + 1;
      if testMode && |all| >= TestModeCap {
        break;
      }
    }
    complete := true;
    assert p > 0 && StopsAfter(pages, p - 1, testMode);
    assert LastPage(pages, testMode) == p - 1 && PagesRead(pages, testMode) == p;
  }

  /** A run of pages whose last one alone reports nothing remaining is read
      to the end outside test mode: every page's assets are collected. */
  lemma PaginationComplete(pages: seq<Page>)
    requires pages != []
    requires forall q :: 0 <= q < |pages| - 1 ==> pages[q].remaining > 0
    requires pages[|pages| - 1].remaining <= 0
    ensures PagesRead(pages, false) == |pages|
    ensures RecordsUpTo(pages, PagesRead(pages, false)) == RecordsUpTo(pages, |pages|)
  {
    LastPageIs(pages, false, |pages| - 1);
  }

  /** In test mode the assets collected before the last page read number
      fewer than the cap, so the total exceeds the cap by less than that
      page's size; and a run that stops on the cap has reached it. */
  lemma {:induction false} TestModeBound(pages: seq<Page>)
    requires LastPage(pages, true) < |pages|
    ensures var n := LastPage(pages, true);
            && |RecordsUpTo(pages, n)| < TestModeCap
            && |RecordsUpTo(pages, n + 1)| < TestModeCap + |pages[n].records|
            && (pages[n].remaining > 0 ==> |RecordsUpTo(pages, n + 1)| >= TestModeCap)
  {
    var n := LastPage(pages, true);
    if n > 0 {
      assert !StopsAfter(pages, n - 1, true);
    }
  }

  // ---------------------------------------------------------------------
  // Blueprint string
  // ---------------------------------------------------------------------

  /** The position of the first `c` in `s`. */
  function IndexOf(s: string, c: char): (i: nat)
    requires c in s
    ensures i < |s| && s[i] == c && c !in s[..i]
  {
    if s[0] == c then 0
    else
      var j := IndexOf(s[1..], c);
      assert s[..j + 1] == [s[0]] + s[1..][..j];
      j + 1
  }

  /** The fields joined again, one separator between each two. */
  function Join(parts: seq<string>, sep: char): string
    requires |parts| >= 1
    decreases |parts|
  {
    if |parts| == 1 then parts[0] else parts[0] + [sep] + Join(parts[1..], sep)
  }

  /** `str.split(sep)`: the fields between the separators, in order; a
      string without the separator is one field. */
  function Split(s: string, sep: char): (parts: seq<string>)
    ensures |parts| >= 1
    ensures forall k :: 0 <= k < |parts| ==> sep !in parts[k]
    ensures |parts| == 1 <==> sep !in s
    ensures Join(parts, sep) == s
    decreases |s|
  {
    if sep !in s then [s]
    else
      var i := IndexOf(s, sep);
      var rest := Split(s[i + 1..], sep);
      assert s == s[..i] + [sep] + s[i + 1..];
      [s[..i]] + rest
  }

  /** The first separator is the one after a separator-free prefix. */
  lemma IndexOfAfter(s: string, c: char, n: nat)
    requires n < |s| && s[n] == c && c !in s[..n]
    ensures IndexOf(s, c) == n
  {
  }

  /** Splitting undoes joining fields that hold no separator. */
  lemma {:induction false} SplitJoin(parts: seq<string>, sep: char)
    requires |parts| >= 1
    requires forall k :: 0 <= k < |parts| ==> sep !in parts[k]
    ensures Split(Join(parts, sep), sep) == parts
    decreases |parts|
  {
    var s := Join(parts, sep);
    if |parts| > 1 {
      var n := |parts[0]|;
      var tail := Join(parts[1..], sep);
      assert s == parts[0] + [sep] + tail;
      assert s[..n] == parts[0];
      assert s[n + 1..] == tail;
      IndexOfAfter(s, sep, n);
      SplitJoin(parts[1..], sep);
      assert Split(s, sep) == [parts[0]] + Split(tail, sep);
    } else {
      assert s == parts[0];
    }
  }

  /** The name and edition parsed from a raw blueprint string. */
  datatype BlueprintFields = BlueprintFields(name: Option<string>, edition: Option<string>)

  /** The comma split in `get_blueprint_of_asset`: fields 0 and 1 of the raw
      string; both null when there is no string (the attribute error) or no
      second field (the index error), the exception being swallowed. */
  function ParseBlueprint(raw: Option<string>): (f: BlueprintFields)
    ensures f.name.None? <==> f.edition.None?
    ensures f.name.None? <==> raw.None? || ',' !in raw.value
    ensures raw.Some? && f.name.Some? ==>
              && |Split(raw.value, ',')| >= 2
              && f.name.value == Split(raw.value, ',')[0]
              && f.edition.value == Split(raw.value, ',')[1]
  {
    if raw.None? then BlueprintFields(None, None)
    else
      var parts := Split(raw.value, ',');
      if |parts| < 2 then BlueprintFields(None, None)
      else BlueprintFields(Some(parts[0]), Some(parts[1]))
  }

  /** With a comma, the name is the text before the first comma and the
      edition the text after it up to the next comma or the end; neither
      holds a comma, and any further fields are ignored. */
  lemma ParseBlueprintPositions(raw: string)
    requires ',' in raw
    ensures var f := ParseBlueprint(Some(raw));
            var n := |f.name.value|;
            var e := |f.edition.value|;
            && ',' !in f.name.value && ',' !in f.edition.value
            && n + 1 + e <= |raw|
            && raw[..n] == f.name.value && raw[n] == ','
            && raw[n + 1..n + 1 + e] == f.edition.value
            && (n + 1 + e == |raw| || raw[n + 1 + e] == ',')
  {
    var parts := Split(raw, ',');
    assert ParseBlueprint(Some(raw)) == BlueprintFields(Some(parts[0]), Some(parts[1]));
    var n := |parts[0]|;
    var e := |parts[1]|;
    var tail := Join(parts[1..], ',');
    assert raw == parts[0] + [','] + tail;
    assert raw[..n] == parts[0] && raw[n] == ',';
    assert raw[n + 1..] == tail;
    if |parts| == 2 {
      assert tail == parts[1];
    } else {
      assert tail == parts[1] + [','] + Join(parts[2..], ',');
      assert tail[e] == ',';
    }
    assert tail[..e] == parts[1];
    assert raw[n + 1..n + 1 + e] == tail[..e];
  }

  lemma ParseBlueprintTwoFields()
    ensures ParseBlueprint(Some("EditionX,5")) == BlueprintFields(Some("EditionX"), Some("5"))
  {
    SplitJoin(["EditionX", "5"], ',');
    assert Join(["EditionX", "5"], ',') == "EditionX,5";
  }

  lemma ParseBlueprintThreeFields()
    ensures ParseBlueprint(Some("Sword,12,gold")) == BlueprintFields(Some("Sword"), Some("12"))
  {
    SplitJoin(["Sword", "12", "gold"], ',');
    assert Join(["Sword", "12", "gold"], ',') == "Sword,12,gold";
  }

  lemma ParseBlueprintOneField()
    ensures ParseBlueprint(Some("NoComma")) == BlueprintFields(None, None)
  {
    assert ',' !in "NoComma";
  }

  // ---------------------------------------------------------------------
  // Blueprint of an asset
  // ---------------------------------------------------------------------

  /** The blueprint `get_blueprint_of_asset` inserts for a raw string it has
      not stored: the parsed fields and the asset's token. */
  function NewBlueprint(raw: BlueprintId, a: Asset): (b: Blueprint)
    ensures b.blueprint == raw
    ensures b.name == ParseBlueprint(raw).name && b.edition == ParseBlueprint(raw).edition
    ensures b.tokenAddress == a.tokenAddress && b.tokenId == a.tokenId
  {
    var f := ParseBlueprint(raw);
    Blueprint(raw, f.name, f.edition, a.tokenAddress, a.tokenId)
  }

  function BlueprintKey(b: Blueprint): BlueprintId
  {
    b.blueprint
  }

  /** `get_blueprint_of_asset`, given the raw `blueprint` value of the
      mintable-token answer: the stored blueprint under that raw value,
      inserted from the asset and the parsed fields when new. */
  method GetBlueprintOfAsset(blueprints: Store.Table<BlueprintId, Blueprint>, a: Asset, raw: BlueprintId)
    returns (b: Blueprint)
    modifies blueprints
    ensures var u := Store.InsertOnce(old(blueprints.rows), raw, NewBlueprint(raw, a));
            blueprints.rows == u.table && b == u.record
  {
    var created;
    b, created := blueprints.GetOrCreate(raw, NewBlueprint(raw, a));
  }

  /** A blueprint table keyed by raw string stays keyed, and the blueprint
      returned is the one of the raw string asked for. */
  lemma GetBlueprintOfAssetKeyed(rows: map<BlueprintId, Blueprint>, a: Asset, raw: BlueprintId)
    requires Store.KeyedBy(rows, BlueprintKey)
    ensures var u := Store.InsertOnce(rows, raw, NewBlueprint(raw, a));
            Store.KeyedBy(u.table, BlueprintKey) && u.record.blueprint == raw
  {
    var u := Store.InsertOnce(rows, raw, NewBlueprint(raw, a));
    assert BlueprintKey(u.record) == raw;
  }

  // ---------------------------------------------------------------------
  // Search by blueprint
  // ---------------------------------------------------------------------

  /** What `Asset.get_or_none(blueprint=b)` finds: no asset, the one asset,
      or several (`MultipleObjectsReturned`). */
  datatype Lookup = NotFound | Found(asset: Asset) | MultipleFound

  /** The keys of the stored assets whose blueprint is `id`. */
  ghost function Holders(rows: map<string, Asset>, id: BlueprintId): set<string>
  {
    set k | k in rows && rows[k].blueprint == Some(id)
  }

  lemma SingletonMember<T>(ks: set<T>, k: T, k': T)
    requires |ks| == 1 && k in ks && k' in ks
    ensures k == k'
  {
    assert |ks - {k}| == 0;
    assert k' in ks - {k} || k' == k;
  }

  /** `Asset.get_or_none(blueprint=...)` over the asset table. */
  ghost function LookupByBlueprint(rows: map<string, Asset>, id: BlueprintId): (l: Lookup)
    ensures l.NotFound? <==> Holders(rows, id) == {}
    ensures l.MultipleFound? <==> |Holders(rows, id)| > 1
    ensures l.Found? ==> l.asset.blueprint == Some(id)
  {
    var ks := Holders(rows, id);
    if ks == {} then NotFound
    else if |ks| > 1 then MultipleFound
    else
      var k :| k in ks;
      assert ks == {k} by {
        forall k' | k' in ks ensures k' == k {
          SingletonMember(ks, k, k');
        }
      }
      Found(rows[k])
  }

  /** A found asset is the one stored asset of the blueprint. */
  lemma LookupByBlueprintFound(rows: map<string, Asset>, id: BlueprintId)
    requires LookupByBlueprint(rows, id).Found?
    ensures exists k :: k in rows && Holders(rows, id) == {k} && rows[k] == LookupByBlueprint(rows, id).asset
  {
    var ks := Holders(rows, id);
    var k :| k in ks;
    forall k' | k' in ks ensures k' == k {
      SingletonMember(ks, k, k');
    }
    assert ks == {k};
  }

  /** No asset is found exactly when none has the blueprint; one is found
      when exactly one has it; several, when two distinct assets have it. */
  lemma LookupByBlueprintMeaning(rows: map<string, Asset>, id: BlueprintId)
    ensures var l := LookupByBlueprint(rows, id);
            l.NotFound? <==> forall k :: k in rows ==> rows[k].blueprint != Some(id)
    ensures var l := LookupByBlueprint(rows, id);
            l.Found? ==>
              exists k :: k in rows && rows[k] == l.asset &&
                (forall k' :: k' in rows && rows[k'].blueprint == Some(id) ==> k' == k)
    ensures var l := LookupByBlueprint(rows, id);
            l.MultipleFound? <==>
              exists k1, k2 :: k1 in rows && k2 in rows && k1 != k2 &&
                rows[k1].blueprint == Some(id) && rows[k2].blueprint == Some(id)
  {
    var ks := Holders(rows, id);
    assert forall k :: k in rows && rows[k].blueprint == Some(id) ==> k in ks;
    if LookupByBlueprint(rows, id).Found? {
      LookupByBlueprintFound(rows, id);
    }
    if |ks| > 1 {
      var k1 :| k1 in ks;
      assert |ks - {k1}| > 0;
      var k2 :| k2 in ks - {k1};
    }
  }

  /** The lookup at the start of each turn of the search loop. */
  method FindByBlueprint(assets: Store.Table<string, Asset>, id: BlueprintId) returns (l: Lookup)
    ensures l == LookupByBlueprint(assets.rows, id)
  {
    var ks := set k | k in assets.rows && assets.rows[k].blueprint == Some(id);
    assert ks == Holders(assets.rows, id);
    if ks == {} {
      l := NotFound;
    } else if |ks| > 1 {
      l := MultipleFound;
    } else {
      var k :| k in ks;
      l := Found(assets.rows[k]);
      ghost var spec := LookupByBlueprint(assets.rows, id);
      LookupByBlueprintFound(assets.rows, id);
      ghost var k' :| k' in assets.rows && ks == {k'} && assets.rows[k'] == spec.asset;
    }
  }

  /** The state of the search: the asset table, the assets collected, and
      whether a lookup found several assets, which aborts the search. */
  datatype SearchRun = SearchRun(table: map<string, Asset>, assets: seq<Asset>, failed: bool)

  /** One turn for blueprint `b`: a stored asset of that blueprint is
      reused; otherwise its detail body is stored with `create_asset`, given
      the blueprint and saved. */
  ghost function SearchStep(run: SearchRun, b: Blueprint, detail: (string, string) -> AssetDict): (r: SearchRun)
    ensures r.failed <==> LookupByBlueprint(run.table, b.blueprint).MultipleFound?
    ensures r.failed ==> r.table == run.table && r.assets == run.assets
    ensures run.table.Keys <= r.table.Keys
    ensures !r.failed ==> |r.assets| == |run.assets| + 1 && r.assets[..|run.assets|] == run.assets
    ensures !r.failed ==> r.assets[|run.assets|].blueprint == Some(b.blueprint)
    ensures LookupByBlueprint(run.table, b.blueprint).Found? ==>
              r.table == run.table && r.assets == run.assets + [LookupByBlueprint(run.table, b.blueprint).asset]
  {
    match LookupByBlueprint(run.table, b.blueprint)
    case MultipleFound => SearchRun(run.table, run.assets, true)
    case Found(a) => SearchRun(run.table, run.assets + [a], false)
    case NotFound =>
      var d := detail(b.tokenAddress, b.tokenId);
      var u := Store.InsertOnce(run.table, DictKey(d), NewAsset(d));
      var a := u.record.(blueprint := Some(b.blueprint));
      SearchRun(u.table[a.id := a], run.assets + [a], false)
  }

  /** The search loop over the matching blueprints, in order, stopping at
      the first lookup that finds several assets. */
  ghost function BlueprintSearch(rows: map<string, Asset>, matching: seq<Blueprint>,
                                 detail: (string, string) -> AssetDict): (r: SearchRun)
    ensures |r.assets| <= |matching| && (!r.failed ==> |r.assets| == |matching|)
    ensures rows.Keys <= r.table.Keys
    decreases |matching|
  {
    if matching == [] then SearchRun(rows, [], false)
    else
      var prev := BlueprintSearch(rows, matching[..|matching| - 1], detail);
      if prev.failed then prev else SearchStep(prev, matching[|matching| - 1], detail)
  }

  /** `get_asset_list_by_blueprint`, given the blueprints named by the query
      (`Blueprint.filter(name=...)`, in the order the store returns them) and
      the detail body the API returns for a token. `failed` reports the
      abort; the table keeps what was written before it. */
  method GetAssetListByBlueprint(assets: Store.Table<string, Asset>, matching: seq<Blueprint>,
                                 detail: (string, string) -> AssetDict)
    returns (all: seq<Asset>, failed: bool)
    modifies assets
    ensures BlueprintSearch(old(assets.rows), matching, detail) == SearchRun(assets.rows, all, failed)
  {
    ghost var rows0 := assets.rows;
    all, failed := [], false;
    var i := 0;
    while i < |matching|
      invariant 0 <= i <= |matching|
      invariant BlueprintSearch(rows0, matching[..i], detail) == SearchRun(assets.rows, all, false)
    {
      assert matching[..i + 1][..i] == matching[..i];
      var b := matching[i];
      var found := FindByBlueprint(assets, b.blueprint);
      if found.MultipleFound? {
        failed := true;
        assert matching[..i + 1][..i] == matching[..i];
        BlueprintSearchAborted(rows0, matching, detail, i);
        return;
      }
      var a: Asset;
      if found.Found? {
        a := found.asset;
      } else {
        a := CreateAsset(assets, detail(b.tokenAddress, b.tokenId));
        a := a.(blueprint := Some(b.blueprint));
        assets.Save(a.id, a);
      }
      all := all + [a];
      i := i + 1;
    }
    assert matching[..i] == matching;
  }

  /** Once a lookup finds several assets the search ends there, whatever
      blueprints follow. */
  lemma {:induction false} BlueprintSearchAborted(rows: map<string, Asset>, matching: seq<Blueprint>,
                                                  detail: (string, string) -> AssetDict, i: nat)
    requires i < |matching|
    requires BlueprintSearch(rows, matching[..i + 1], detail).failed
    ensures BlueprintSearch(rows, matching, detail) == BlueprintSearch(rows, matching[..i + 1], detail)
    decreases |matching| - i
  {
    if i + 1 < |matching| {
      var next := matching[..i + 2];
      assert next[..i + 1] == matching[..i + 1];
      assert BlueprintSearch(rows, next, detail) == BlueprintSearch(rows, matching[..i + 1], detail);
      BlueprintSearchAborted(rows, matching, detail, i + 1);
    } else {
      assert matching[..i + 1] == matching;
    }
  }

  /** Every blueprint is read, one asset each, unless the search aborts. */
  lemma {:induction false} BlueprintSearchLength(rows: map<string, Asset>, matching: seq<Blueprint>,
                                                 detail: (string, string) -> AssetDict)
    ensures var r := BlueprintSearch(rows, matching, detail);
            && |r.assets| <= |matching|
            && (r.failed <==> |r.assets| < |matching|)
    decreases |matching|
  {
    if matching != [] {
      var n := |matching| - 1;
      var pre := matching[..n];
      BlueprintSearchLength(rows, pre, detail);
      var prev := BlueprintSearch(rows, pre, detail);
      var r := BlueprintSearch(rows, matching, detail);
      assert |pre| == n && |prev.assets| <= n;
      if prev.failed {
        assert r == prev;
      } else {
        assert r == SearchStep(prev, matching[n], detail);
        assert |prev.assets| == n;
      }
    }
  }

  /** The assets come in blueprint order, each carrying its blueprint. */
  lemma {:induction false} BlueprintSearchOrder(rows: map<string, Asset>, matching: seq<Blueprint>,
                                                detail: (string, string) -> AssetDict)
    ensures var r := BlueprintSearch(rows, matching, detail);
            forall i :: 0 <= i < |r.assets| && i < |matching| ==>
              r.assets[i].blueprint == Some(matching[i].blueprint)
    decreases |matching|
  {
    if matching != [] {
      var n := |matching| - 1;
      var pre := matching[..n];
      BlueprintSearchOrder(rows, pre, detail);
      BlueprintSearchLength(rows, pre, detail);
      var prev := BlueprintSearch(rows, pre, detail);
      var r := BlueprintSearch(rows, matching, detail);
      if !prev.failed {
        assert r == SearchStep(prev, matching[n], detail);
      }
      forall i | 0 <= i < |r.assets| && i < |matching|
        ensures r.assets[i].blueprint == Some(matching[i].blueprint)
      {
        if i < |prev.assets| {
          assert r.assets[i] == prev.assets[i];
          assert pre[i] == matching[i];
        } else {
          assert i == n;
        }
      }
    }
  }

  /** A turn that finds no asset of the blueprint stores the detail body's
      asset (the one already stored under its key, or a new one built from
      the body) with the blueprint set, under its own key. */
  lemma SearchStepFetches(run: SearchRun, b: Blueprint, detail: (string, string) -> AssetDict)
    requires KeyedById(run.table)
    requires LookupByBlueprint(run.table, b.blueprint).NotFound?
    ensures var d := detail(b.tokenAddress, b.tokenId);
            var r := SearchStep(run, b, detail);
            var a := r.assets[|r.assets| - 1];
            && |r.assets| == |run.assets| + 1 && !r.failed
            && a.id == DictKey(d) && a.blueprint == Some(b.blueprint)
            && DictKey(d) in r.table && r.table[DictKey(d)] == a
            && (DictKey(d) !in run.table ==> a == NewAsset(d).(blueprint := Some(b.blueprint)))
            && (DictKey(d) in run.table ==> a == run.table[DictKey(d)].(blueprint := Some(b.blueprint)))
            && (forall k :: k in run.table && k != DictKey(d) ==> k in r.table && r.table[k] == run.table[k])
  {
  }

  /** The search keeps every asset under its own key. */
  lemma {:induction false} BlueprintSearchKeyed(rows: map<string, Asset>, matching: seq<Blueprint>,
                                                detail: (string, string) -> AssetDict)
    requires KeyedById(rows)
    ensures KeyedById(BlueprintSearch(rows, matching, detail).table)
    decreases |matching|
  {
    if matching != [] {
      var pre := matching[..|matching| - 1];
      BlueprintSearchKeyed(rows, pre, detail);
      var prev := BlueprintSearch(rows, pre, detail);
      if !prev.failed {
        var b := matching[|matching| - 1];
        if LookupByBlueprint(prev.table, b.blueprint).NotFound? {
          SearchStepFetches(prev, b, detail);
        }
      }
    }
  }

  /** When every matching blueprint already has its one stored asset,
      nothing is fetched or written and those assets are returned. */
  lemma {:induction false} BlueprintSearchReuses(rows: map<string, Asset>, matching: seq<Blueprint>,
                                                 detail: (string, string) -> AssetDict)
    requires forall i :: 0 <= i < |matching| ==> LookupByBlueprint(rows, matching[i].blueprint).Found?
    ensures var r := BlueprintSearch(rows, matching, detail);
            && r.table == rows && !r.failed && |r.assets| == |matching|
            && forall i :: 0 <= i < |matching| ==>
                 r.assets[i] == LookupByBlueprint(rows, matching[i].blueprint).asset
    decreases |matching|
  {
    if matching != [] {
      var n := |matching| - 1;
      var pre := matching[..n];
      assert forall i :: 0 <= i < n ==> LookupByBlueprint(rows, pre[i].blueprint).Found? by {
        forall i | 0 <= i < n ensures LookupByBlueprint(rows, pre[i].blueprint).Found? {
          assert pre[i] == matching[i];
        }
      }
      BlueprintSearchReuses(rows, pre, detail);
      var prev := BlueprintSearch(rows, pre, detail);
      var l := LookupByBlueprint(rows, matching[n].blueprint);
      assert l.Found?;
      assert prev.table == rows && !prev.failed;
      var r := SearchStep(prev, matching[n], detail);
      assert r.table == rows && !r.failed;
      assert r.assets == prev.assets + [l.asset];
      assert BlueprintSearch(rows, matching, detail) == r;
      assert |prev.assets| == n;
      forall i | 0 <= i < |matching|
        ensures r.assets[i] == LookupByBlueprint(rows, matching[i].blueprint).asset
      {
        if i < n {
          assert pre[i] == matching[i];
          assert r.assets[i] == prev.assets[i];
        } else {
          assert i == n && r.assets[i] == l.asset;
        }
      }
    }
  }

  // ---------------------------------------------------------------------
  // Transfer history and provenance
  // ---------------------------------------------------------------------

  /** The fields of an upstream transfer body that the replay reads. */
  datatype TransferDict = TransferDict(
    transactionId: int,
    receiver: string,
    status: string,
    timestamp: string,
    user: string)

  /** The transfer `get_or_create` inserts for a transaction id it has not
      stored: the body's fields, attached to the asset. */
  function NewTransfer(d: TransferDict, assetId: string): (t: Transfer)
    ensures t.transactionId == d.transactionId && t.receiver == d.receiver
    ensures t.status == d.status && t.timestamp == d.timestamp && t.user == d.user
    ensures t.asset == assetId
  {
    Transfer(d.transactionId, d.receiver, d.status, d.timestamp, d.user, assetId)
  }

  /** The `get_or_create` calls the replay makes, keyed by transaction id. */
  function TransferEntries(ds: seq<TransferDict>, assetId: string): (es: seq<(int, Transfer)>)
    ensures |es| == |ds|
    ensures forall i :: 0 <= i < |ds| ==> es[i] == (ds[i].transactionId, NewTransfer(ds[i], assetId))
  {
    seq(|ds|, i requires 0 <= i < |ds| => (ds[i].transactionId, NewTransfer(ds[i], assetId)))
  }

  /** What the replay establishes: the minting address, the first holder
      after it (null without transfers) and the number of transfers. */
  datatype Provenance = Provenance(mint: string, firstNonMint: Option<string>, count: nat)

  /** The loop of `get_transfer_history_of_asset` over the stored transfers,
      newest first, starting from the current owner: each transfer must have
      been received by the current holder, who is then replaced by its sender.
      `Err(k)` is the `ValueError` raised at transfer `k`. */
  function Replay(owner: string, ts: seq<Transfer>): (r: Result<Provenance, nat>)
    ensures r.Ok? ==> r.value.count == |ts| && (r.value.firstNonMint.None? <==> ts == [])
    decreases |ts|
  {
    if ts == [] then Ok(Provenance(owner, None, 0))
    else
      match Replay(owner, ts[..|ts| - 1])
      case Err(k) => Err(k)
      case Ok(p) =>
        var t := ts[|ts| - 1];
        if p.mint == t.receiver then Ok(Provenance(t.user, Some(p.mint), p.count + 1))
        else Err(|ts| - 1)
  }

  /** Reference definition: the holder before transfer `i` is the owner for
      the newest transfer and the sender of the transfer after it otherwise. */
  function HolderAt(owner: string, ts: seq<Transfer>, i: nat): string
    requires i <= |ts|
  {
    if i == 0 then owner else ts[i - 1].user
  }

  /** Every transfer was received by the holder before it. */
  ghost predicate ChainConsistent(owner: string, ts: seq<Transfer>)
  {
    forall i :: 0 <= i < |ts| ==> ts[i].receiver == HolderAt(owner, ts, i)
  }

  lemma HolderAtPrefix(owner: string, ts: seq<Transfer>, m: nat, i: nat)
    requires i <= m <= |ts|
    ensures HolderAt(owner, ts[..m], i) == HolderAt(owner, ts, i)
  {
    if i > 0 {
      assert ts[..m][i - 1] == ts[i - 1];
    }
  }

  /** Dropping the oldest transfer keeps the holders before the others, and
      keeps a consistent chain consistent. */
  lemma ChainPrefix(owner: string, ts: seq<Transfer>)
    requires ts != []
    ensures var pre := ts[..|ts| - 1];
            && (forall i :: 0 <= i <= |pre| ==> HolderAt(owner, pre, i) == HolderAt(owner, ts, i))
            && (forall i :: 0 <= i < |pre| ==> pre[i] == ts[i])
    ensures ChainConsistent(owner, ts) ==> ChainConsistent(owner, ts[..|ts| - 1])
  {
    var n := |ts| - 1;
    forall i | 0 <= i <= n
      ensures HolderAt(owner, ts[..n], i) == HolderAt(owner, ts, i)
    {
      HolderAtPrefix(owner, ts, n, i);
    }
  }

  /** A successful replay was over a consistent chain, and names the sender
      of the oldest transfer as minter, the holder before it as first
      non-mint holder, and counts every transfer. */
  lemma {:induction false} ReplayOkValue(owner: string, ts: seq<Transfer>)
    requires Replay(owner, ts).Ok?
    ensures ChainConsistent(owner, ts)
    ensures Replay(owner, ts).value == Provenance(HolderAt(owner, ts, |ts|),
                                                  if ts == [] then None else Some(HolderAt(owner, ts, |ts| - 1)),
                                                  |ts|)
    decreases |ts|
  {
    if ts != [] {
      var n := |ts| - 1;
      var pre := ts[..n];
      var t := ts[n];
      assert Replay(owner, pre).Ok?;
      var p := Replay(owner, pre).value;
      assert p.mint == t.receiver;
      assert Replay(owner, ts) == Ok(Provenance(t.user, Some(p.mint), p.count + 1));
      ReplayOkValue(owner, pre);
      ChainPrefix(owner, ts);
      assert p.mint == HolderAt(owner, ts, n);
      forall i | 0 <= i < |ts| ensures ts[i].receiver == HolderAt(owner, ts, i) {
        if i < n {
          assert pre[i].receiver == HolderAt(owner, pre, i);
        }
      }
    }
  }

  /** A consistent chain replays successfully. */
  lemma {:induction false} ReplayConsistentOk(owner: string, ts: seq<Transfer>)
    requires ChainConsistent(owner, ts)
    ensures Replay(owner, ts).Ok?
    decreases |ts|
  {
    if ts != [] {
      var n := |ts| - 1;
      var pre := ts[..n];
      ChainPrefix(owner, ts);
      ReplayConsistentOk(owner, pre);
      ReplayOkValue(owner, pre);
      var p := Replay(owner, pre).value;
      assert p.mint == HolderAt(owner, ts, n);
      assert ts[n].receiver == HolderAt(owner, ts, n);
      assert Replay(owner, ts) == Ok(Provenance(ts[n].user, Some(p.mint), p.count + 1));
    }
  }

  /** The error of a failed replay, as stated by `ReplayErrAt`. */
  ghost predicate FailsAt(owner: string, ts: seq<Transfer>, k: nat)
  {
    && k < |ts| && ts[k].receiver != HolderAt(owner, ts, k)
    && forall i :: 0 <= i < k ==> ts[i].receiver == HolderAt(owner, ts, i)
  }

  /** A failure in a prefix is a failure of the whole list. */
  lemma FailsAtExtend(owner: string, ts: seq<Transfer>, k: nat)
    requires ts != [] && FailsAt(owner, ts[..|ts| - 1], k)
    ensures FailsAt(owner, ts, k)
  {
    var pre := ts[..|ts| - 1];
    ChainPrefix(owner, ts);
    forall i | 0 <= i <= k ensures pre[i].receiver == ts[i].receiver {
    }
  }

  /** A mismatch right after a consistent prefix is a failure at its end. */
  lemma FailsAtLast(owner: string, ts: seq<Transfer>)
    requires ts != [] && ChainConsistent(owner, ts[..|ts| - 1])
    requires ts[|ts| - 1].receiver != HolderAt(owner, ts, |ts| - 1)
    ensures FailsAt(owner, ts, |ts| - 1)
  {
    var n := |ts| - 1;
    var pre := ts[..n];
    ChainPrefix(owner, ts);
    forall i | 0 <= i < n ensures ts[i].receiver == HolderAt(owner, ts, i) {
      assert pre[i].receiver == HolderAt(owner, pre, i);
    }
  }

  /** A failed replay stopped at the first transfer whose receiver is not
      the holder before it. */
  lemma {:induction false} ReplayErrAt(owner: string, ts: seq<Transfer>)
    requires Replay(owner, ts).Err?
    ensures var k := Replay(owner, ts).error;
            && k < |ts| && ts[k].receiver != HolderAt(owner, ts, k)
            && forall i :: 0 <= i < k ==> ts[i].receiver == HolderAt(owner, ts, i)
    decreases |ts|
  {
    assert ts != [];
    var n := |ts| - 1;
    var pre := ts[..n];
    match Replay(owner, pre)
    case Err(k) =>
      assert Replay(owner, ts) == Err(k);
      ReplayErrAt(owner, pre);
      FailsAtExtend(owner, ts, k);
    case Ok(p) =>
      ReplayOkValue(owner, pre);
      ChainPrefix(owner, ts);
      assert Replay(owner, ts) == Err(n);
      FailsAtLast(owner, ts);
  }

  /** The replay succeeds exactly on a consistent chain, and then names the
      sender of the oldest transfer as minter, the holder before it as first
      non-mint holder, and counts every transfer; otherwise it fails at the
      first transfer whose receiver is not the holder before it. */
  lemma ReplayCorrect(owner: string, ts: seq<Transfer>)
    ensures Replay(owner, ts).Ok? <==> ChainConsistent(owner, ts)
    ensures Replay(owner, ts).Ok? ==>
              Replay(owner, ts).value == Provenance(HolderAt(owner, ts, |ts|),
                                                    if ts == [] then None else Some(HolderAt(owner, ts, |ts| - 1)),
                                                    |ts|)
    ensures Replay(owner, ts).Err? ==>
              var k := Replay(owner, ts).error;
              && k < |ts| && ts[k].receiver != HolderAt(owner, ts, k)
              && forall i :: 0 <= i < k ==> ts[i].receiver == HolderAt(owner, ts, i)
  {
    if Replay(owner, ts).Ok? {
      ReplayOkValue(owner, ts);
    } else {
      ReplayErrAt(owner, ts);
      if ChainConsistent(owner, ts) {
        ReplayConsistentOk(owner, ts);
      }
    }
  }

  /** One more transfer: the replay moves back one holder when the
      transfer was received by the current one and fails there otherwise. */
  lemma ReplaySnoc(owner: string, ts: seq<Transfer>, t: Transfer, p: Provenance)
    requires Replay(owner, ts) == Ok(p)
    ensures Replay(owner, ts + [t]) ==
              if p.mint == t.receiver then Ok(Provenance(t.user, Some(p.mint), p.count + 1))
              else Err(|ts|)
  {
    assert (ts + [t])[..|ts|] == ts;
  }

  /** A failure stays a failure at the same transfer however many older
      transfers follow. */
  lemma {:induction false} ReplayPrefixErr(owner: string, ts: seq<Transfer>, m: nat)
    requires m <= |ts| && Replay(owner, ts[..m]).Err?
    ensures Replay(owner, ts) == Replay(owner, ts[..m])
    decreases |ts| - m
  {
    if m < |ts| {
      assert ts[..m + 1][..m] == ts[..m];
      ReplayPrefixErr(owner, ts, m + 1);
    } else {
      assert ts[..m] == ts;
    }
  }

  lemma ReplayExample()
    ensures Replay("C", [Transfer(2, "C", "success", "t2", "B", "x"),
                         Transfer(1, "B", "success", "t1", "A", "x")])
            == Ok(Provenance("A", Some("B"), 2))
  {
    var ts := [Transfer(2, "C", "success", "t2", "B", "x"), Transfer(1, "B", "success", "t1", "A", "x")];
    assert ts[..1] == [ts[0]];
    assert ts[..1][..0] == [];
  }

  lemma ReplayNoTransfers(owner: string)
    ensures Replay(owner, []) == Ok(Provenance(owner, None, 0))
  {
  }

  lemma ReplayMismatch()
    ensures Replay("C", [Transfer(2, "B", "success", "t2", "A", "x")]) == Err(0)
  {
    var ts := [Transfer(2, "B", "success", "t2", "A", "x")];
    assert ts[..0] == [];
  }

  /** The asset with the three provenance fields set. */
  function WithProvenance(a: Asset, p: Provenance): (a': Asset)
    ensures a'.mintAddress == Some(p.mint) && a'.firstNonMintAddress == p.firstNonMint
    ensures a'.numTransfers == Some(p.count)
    ensures a' == a.(mintAddress := a'.mintAddress, firstNonMintAddress := a'.firstNonMintAddress,
                     numTransfers := a'.numTransfers)
  {
    a.(mintAddress := Some(p.mint), firstNonMintAddress := p.firstNonMint, numTransfers := Some(p.count))
  }

  /** Storing one more transfer body extends the batch by it. */
  lemma TransferStep(rows0: map<int, Transfer>, ds: seq<TransferDict>, assetId: string, i: nat,
                     mid: Store.Batch<int, Transfer>, u: Store.Upsert<int, Transfer>)
    requires i < |ds|
    requires mid == Store.InsertAll(rows0, TransferEntries(ds[..i], assetId))
    requires u == Store.InsertOnce(mid.table, ds[i].transactionId, NewTransfer(ds[i], assetId))
    ensures Store.Batch(u.table, mid.records + [u.record]) == Store.InsertAll(rows0, TransferEntries(ds[..i + 1], assetId))
  {
    assert TransferEntries(ds[..i + 1], assetId)[..i] == TransferEntries(ds[..i], assetId);
  }

  /** A failure in the transfers stored so far is the failure of the replay
      over the whole list the API returned. */
  lemma ReplayBatchErr(rows: map<int, Transfer>, ds: seq<TransferDict>, assetId: string, owner: string, i: nat)
    requires i < |ds|
    requires Replay(owner, Store.InsertAll(rows, TransferEntries(ds[..i + 1], assetId)).records) == Err(i)
    ensures Replay(owner, Store.InsertAll(rows, TransferEntries(ds, assetId)).records) == Err(i)
  {
    var xs := TransferEntries(ds[..i + 1], assetId);
    var ys := TransferEntries(ds[i + 1..], assetId);
    assert TransferEntries(ds, assetId) == xs + ys;
    Store.InsertAllAppend(rows, xs, ys);
    var all := Store.InsertAll(rows, xs + ys).records;
    var pre := Store.InsertAll(rows, xs).records;
    assert all[..i + 1] == pre;
    ReplayPrefixErr(owner, all, i + 1);
  }

  /** `get_transfer_history_of_asset`, given the transfer bodies the API
      returns for the asset, newest first: each is stored with
      `get_or_create` by transaction id (the stored transfer is the one
      replayed), and the asset comes back with its provenance set. The
      `ValueError` is `Err(k)`: the transfers up to `k` stay stored and the
      asset is not touched. */
  method GetTransferHistoryOfAsset(transfers: Store.Table<int, Transfer>, a: Asset, ds: seq<TransferDict>)
    returns (r: Result<(Asset, seq<Transfer>), nat>)
    modifies transfers
    ensures var b := Store.InsertAll(old(transfers.rows), TransferEntries(ds, a.id));
            match Replay(a.user, b.records)
            case Ok(p) => r == Ok((WithProvenance(a, p), b.records)) && transfers.rows == b.table
            case Err(k) =>
              && r == Err(k) && k < |ds|
              && transfers.rows == Store.InsertAll(old(transfers.rows), TransferEntries(ds[..k + 1], a.id)).table
  {
    ghost var rows0 := transfers.rows;
    var current := a.user;
    var prior: Option<string> := None;
    var count: nat := 0;
    var history: seq<Transfer> := [];
    var i: nat := 0;
    while i < |ds|
      invariant i <= |ds| && count == i
      invariant Store.Batch(transfers.rows, history) == Store.InsertAll(rows0, TransferEntries(ds[..i], a.id))
      invariant Replay(a.user, history) == Ok(Provenance(current, prior, count))
    {
      count := count + 1;
      ghost var mid := Store.Batch(transfers.rows, history);
      var t, created := transfers.GetOrCreate(ds[i].transactionId, NewTransfer(ds[i], a.id));
      TransferStep(rows0, ds, a.id, i, mid, Store.Upsert(transfers.rows, t, created));
      ReplaySnoc(a.user, history, t, Provenance(current, prior, count - 1));
      history := history + [t];
      if current == t.receiver {
        prior := Some(current);
        current := t.user;
      } else {
        ReplayBatchErr(rows0, ds, a.id, a.user, i);
        r := Err(i);
        return;
      }
      i := i + 1;
    }
    assert ds[..i] == ds;
    ghost var b := Store.InsertAll(rows0, TransferEntries(ds, a.id));
    assert b.records == history && b.table == transfers.rows;
    r := Ok((WithProvenance(a, Provenance(current, prior, count)), history));
  }
}
