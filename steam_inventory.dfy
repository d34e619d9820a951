/** `SteamService.FetchInventory`: identifier normalisation, count
    clamping, the envelope checks, the two lookup indices and the join of
    assets with their descriptions into preview items. The HTTP GET is an
    oracle: a function from the request URL to what came back, already
    decoded when it was valid JSON. */
module SteamInventory {
  import opened Outcomes
  import opened GoStrings
  import opened SteamRemote
  import opened SteamTaxonomy

  /** A preview item (`SteamItem`). */
  datatype SteamItem = SteamItem(
    assetId: string,
    name: string,
    imageUrl: string,
    quality: string,
    wear: string,
    category: string,
    wearValue: string)

  /** Why a fetch fails, in the order the checks run. */
  datatype FetchError =
    | EmptySteamID                            // "steamID 不能为空"
    | RemoteUnavailable                       // "请求 steam 失败: …"
    | RemoteRejected(status: int, body: string) // "steam 返回 <status>: <body>"
    | DecodeFailed                            // "解析 steam JSON 失败: …"
    | RemoteReportedFailure                   // "steam 返回失败"

  /** What the GET of the inventory URL gives back: a transport error, or
      a status, the raw body and its decoding when the body was valid JSON
      for the envelope. */
  datatype HttpReply =
    | TransportFailed
    | Responded(status: int, body: string, decoded: Option<InventoryResp>)

  // ----- identifier normalisation -----------------------------------------

  /** The substring that marks a full inventory URL. */
  const InventoryMarker: string := "steamcommunity.com/inventory/"

  /** The path segment after which the identifier stands. */
  const InventorySegment: string := "inventory"

  /** Segment `j` is the first "inventory" segment, and one follows it. */
  predicate FirstInventoryAt(parts: seq<string>, j: int)
  {
    0 <= j < |parts| - 1 && parts[j] == InventorySegment
    && forall k :: 0 <= k < j ==> parts[k] != InventorySegment
  }

  /** The segment after the first "inventory" segment that has a
      successor, or `fallback` when there is none. */
  function SegmentAfterInventory(parts: seq<string>, fallback: string): (s: string)
    ensures forall j :: FirstInventoryAt(parts, j) ==> s == parts[j + 1]
    ensures (forall j :: !FirstInventoryAt(parts, j)) ==> s == fallback
    decreases |parts|
  {
    if |parts| < 2 then fallback
    else if parts[0] == InventorySegment then
      assert FirstInventoryAt(parts, 0);
      parts[1]
    else
      var rest := parts[1..];
      assert forall j :: FirstInventoryAt(parts, j) ==> FirstInventoryAt(rest, j - 1);
      assert forall j :: FirstInventoryAt(rest, j) ==> FirstInventoryAt(parts, j + 1);
      SegmentAfterInventory(rest, fallback)
  }

  /** The identifier the request is made for: the input itself unless it
      contains the inventory URL marker, and then the segment after the
      first "inventory" segment that has a successor (the whole input
      when there is none, which ExtractedSegmentFollowsInventory shows
      cannot happen). */
  function ExtractSteamID(steamID: string): (id: string)
    ensures !Contains(steamID, InventoryMarker) ==> id == steamID
    ensures Contains(steamID, InventoryMarker) ==>
      forall j :: FirstInventoryAt(Split(steamID, '/'), j) ==> id == Split(steamID, '/')[j + 1]
  {
    if Contains(steamID, InventoryMarker)
    then SegmentAfterInventory(Split(steamID, '/'), steamID)
    else steamID
  }

  /** When the marker is present there always is an "inventory" segment
      with a successor, and the identifier is the segment after the first
      one: the fallback to the whole input is never taken. */
  lemma ExtractedSegmentFollowsInventory(steamID: string)
    requires Contains(steamID, InventoryMarker)
    ensures exists j :: FirstInventoryAt(Split(steamID, '/'), j)
                        && ExtractSteamID(steamID) == Split(steamID, '/')[j + 1]
  {
    var parts := Split(steamID, '/');
    MarkerGivesInventorySegment(steamID);
    var m :| 0 <= m < |parts| - 1 && parts[m] == InventorySegment;
    FirstSegmentWins(parts, steamID, m);
  }

  /** The marker's "/inventory/" cuts out an "inventory" segment that has
      a successor. */
  lemma MarkerGivesInventorySegment(steamID: string)
    requires Contains(steamID, InventoryMarker)
    ensures exists m :: 0 <= m < |Split(steamID, '/')| - 1 && Split(steamID, '/')[m] == InventorySegment
  {
    var pre, post := ContainsSplits(steamID, InventoryMarker);
    var host := pre + "steamcommunity.com";
    var tail := InventorySegment + ['/'] + post;
    assert steamID == host + ['/'] + tail by {
      BrowseURLLiterals();
    }
    SplitAround(host, '/', tail);
    SplitAround(InventorySegment, '/', post);
    SplitNoSeparator(InventorySegment, '/');
    var m := |Split(host, '/')|;
    assert Split(steamID, '/') == Split(host, '/') + ([InventorySegment] + Split(post, '/'));
    assert Split(steamID, '/')[m] == InventorySegment;
  }

  /** If some "inventory" segment at or before `m` has a successor, the
      search stops at the first one. */
  lemma {:induction false} FirstSegmentWins(parts: seq<string>, fallback: string, m: int)
    requires 0 <= m < |parts| - 1 && parts[m] == InventorySegment
    ensures exists j :: FirstInventoryAt(parts, j)
                        && SegmentAfterInventory(parts, fallback) == parts[j + 1]
  {
    if parts[0] == InventorySegment {
      assert FirstInventoryAt(parts, 0);
    } else {
      FirstSegmentWins(parts[1..], fallback, m - 1);
      var j :| FirstInventoryAt(parts[1..], j)
               && SegmentAfterInventory(parts[1..], fallback) == parts[1..][j + 1];
      assert FirstInventoryAt(parts, j + 1);
    }
  }

  /** The browseable inventory URL of an account. */
  function BrowseURL(id: string): string
  {
    "https://" + InventoryMarker + id + "/730/2"
  }

  /** It carries the inventory marker, whatever query follows it. */
  lemma BrowseURLHasMarker(id: string, query: string)
    ensures Contains(BrowseURL(id) + query, InventoryMarker)
  {
    var url := BrowseURL(id) + query;
    assert url[8..8 + |InventoryMarker|] == InventoryMarker;
    assert OccursAt(url, InventoryMarker, 8);
  }

  /** Its path segments: "https:", "", the host, "inventory", the id,
      then the app and the context with the query. */
  lemma {:induction false} BrowseURLSegments(id: string, query: string)
    requires '/' !in id && '/' !in query
    ensures var parts := Split(BrowseURL(id) + query, '/');
      |parts| == 7 && parts[0] == "https:" && parts[1] == "" && parts[2] == "steamcommunity.com"
      && parts[3] == InventorySegment && parts[4] == id
  {
    var t4 := "730" + ['/'] + ("2" + query);
    var t3 := id + ['/'] + t4;
    var t2 := InventorySegment + ['/'] + t3;
    var t1 := "steamcommunity.com" + ['/'] + t2;
    var t0 := "" + ['/'] + t1;
    assert Split(t4, '/') == ["730", "2" + query] by {
      SplitNoSeparator("2" + query, '/');
      SplitCons("730", '/', "2" + query);
    }
    assert Split(t3, '/') == [id] + Split(t4, '/') by { SplitCons(id, '/', t4); }
    assert Split(t2, '/') == [InventorySegment] + Split(t3, '/') by { SplitCons(InventorySegment, '/', t3); }
    assert Split(t1, '/') == ["steamcommunity.com"] + Split(t2, '/') by {
      SplitCons("steamcommunity.com", '/', t2);
    }
    assert Split(t0, '/') == [""] + Split(t1, '/') by { SplitCons("", '/', t1); }
    assert Split(BrowseURL(id) + query, '/') == ["https:"] + Split(t0, '/') by {
      BrowseURLShape(id, query);
      SplitCons("https:", '/', t0);
    }
  }

  /** The browseable URL and its query, cut at each of its slashes. */
  lemma BrowseURLShape(id: string, query: string)
    ensures BrowseURL(id) + query
            == "https:" + ['/'] + ("" + ['/'] + ("steamcommunity.com" + ['/'] + (InventorySegment + ['/']
               + (id + ['/'] + ("730" + ['/'] + ("2" + query))))))
  {
    BrowseURLLiterals();
  }

  /** The literal pieces of the browseable URL, cut at their slashes. */
  lemma BrowseURLLiterals()
    ensures "https://" == "https:" + ['/'] + ['/']
    ensures InventoryMarker == "steamcommunity.com" + ['/'] + InventorySegment + ['/']
    ensures "/730/2" == ['/'] + "730" + ['/'] + "2"
  {
  }

  /** An inventory URL of the account, with any slash-free query after
      it, yields the account id that follows the "inventory" segment. */
  lemma ExtractFromAccountURL(id: string, query: string)
    requires '/' !in id && '/' !in query
    ensures ExtractSteamID(BrowseURL(id) + query) == id
  {
    var url := BrowseURL(id) + query;
    var parts := Split(url, '/');
    assert Contains(url, InventoryMarker) by {
      BrowseURLHasMarker(id, query);
    }
    assert FirstInventoryAt(parts, 3) && parts[4] == id by {
      BrowseURLSegments(id, query);
      assert |parts[0]| != |InventorySegment| && |parts[1]| != |InventorySegment|
             && |parts[2]| != |InventorySegment|;
    }
  }

  /** A browseable inventory URL yields the account id that follows the
      "inventory" segment. */
  lemma ExtractFromBrowseURL(id: string)
    requires '/' !in id
    ensures ExtractSteamID(BrowseURL(id)) == id
  {
    ExtractFromAccountURL(id, "");
    assert BrowseURL(id) + "" == BrowseURL(id);
  }

  /** A count of 5000 is sent as "count=1000". */
  lemma ScenarioCountClamped(steamID: string)
    ensures InventoryURL(steamID, ClampCount(5000)) == InventoryURL(steamID, 1000)
    ensures Decimal(ClampCount(5000)) == "1000"
  {
  }

  /** The identifier check and URL handling at the top of `FetchInventory`,
      with its loop over the path segments. */
  method NormalizeSteamID(steamID: string) returns (r: Result<string, FetchError>)
    ensures steamID == "" <==> r == Err(EmptySteamID)
    ensures steamID != "" ==> r == Ok(ExtractSteamID(steamID))
  {
    if steamID == "" {
      return Err(EmptySteamID);
    }
    if Contains(steamID, InventoryMarker) {
      var parts := Split(steamID, '/');
      for i := 0 to |parts|
        invariant SegmentAfterInventory(parts, steamID) == SegmentAfterInventory(parts[i..], steamID)
      {
        assert parts[i..][1..] == parts[i + 1..];
        if parts[i] == InventorySegment && i + 1 < |parts| {
          return Ok(parts[i + 1]);
        }
      }
    }
    return Ok(steamID);
  }

  // ----- count and request URL -------------------------------------------

  const DefaultCount: int := 1000
  const MaxCount: int := 2000

  /** The count sent to Steam: kept when in (0, 2000], 1000 otherwise. */
  function ClampCount(count: int): (c: int)
    ensures 0 < c <= MaxCount
    ensures 0 < count <= MaxCount ==> c == count
    ensures !(0 < count <= MaxCount) ==> c == DefaultCount
  {
    if count <= 0 || count > MaxCount then DefaultCount else count
  }

  /** The character of a decimal digit. */
  function DigitChar(d: nat): (c: char)
    requires d < 10
    ensures '0' <= c <= '9'
  {
    (48 + d) as char
  }

  /** A non-empty run of decimal digits. */
  predicate IsDigits(s: string)
  {
    |s| > 0 && forall i :: 0 <= i < |s| ==> '0' <= s[i] <= '9'
  }

  /** The number a run of decimal digits denotes. */
  function DigitsValue(s: string): nat
    requires IsDigits(s)
    decreases |s|
  {
    var last := (s[|s| - 1] as int) - 48;
    if |s| == 1 then last
    else DigitsValue(s[..|s| - 1]) * 10 + last
  }

  /** Decimal digits of a natural number, as `%d` prints it: digits only,
      no leading zero, and they read back as `n`. */
  function Decimal(n: nat): (s: string)
    ensures IsDigits(s)
    ensures s[0] == '0' <==> n == 0
    ensures DigitsValue(s) == n
    decreases n
  {
    if n < 10 then [DigitChar(n)]
    else
      var s := Decimal(n / 10) + [DigitChar(n % 10)];
      assert s[..|s| - 1] == Decimal(n / 10);
      s
  }

  /** The inventory URL: Counter-Strike's app 730, context 2, Simplified
      Chinese labels. */
  function InventoryURL(steamID: string, count: nat): string
  {
    "https://steamcommunity.com/inventory/" + steamID + "/730/2?l=schinese&count=" + Decimal(count)
  }

  /** The query the fetch adds to the browseable URL. */
  const InventoryQuery: string := "?l=schinese&count="

  /** The request URL is the account's browseable URL with the query
      `l=schinese&count=<digits>`, where the digits read back as the
      count; normalising it gives back the account id. */
  lemma InventoryURLRoundTrip(id: string, count: nat)
    requires '/' !in id
    ensures exists digits :: IsDigits(digits) && DigitsValue(digits) == count
                             && InventoryURL(id, count) == BrowseURL(id) + InventoryQuery + digits
    ensures ExtractSteamID(InventoryURL(id, count)) == id
  {
    InventoryURLParts(id, count);
    QueryHasNoSlash(count);
    ExtractFromAccountURL(id, InventoryQuery + Decimal(count));
  }

  /** The request URL is the browseable URL followed by the query. */
  lemma InventoryURLParts(id: string, count: nat)
    ensures InventoryURL(id, count) == BrowseURL(id) + (InventoryQuery + Decimal(count))
  {
    HostLiteral();
    PathLiteral();
    var digits := Decimal(count);
    calc {
      InventoryURL(id, count);
      "https://steamcommunity.com/inventory/" + id + "/730/2?l=schinese&count=" + digits;
      ("https://" + InventoryMarker + id + "/730/2") + (InventoryQuery + digits);
    }
  }

  /** The request URL starts with the browseable URL's scheme and marker. */
  lemma HostLiteral()
    ensures "https://steamcommunity.com/inventory/" == "https://" + InventoryMarker
  {
  }

  /** The request URL's path is the browseable URL's, then the query. */
  lemma PathLiteral()
    ensures "/730/2?l=schinese&count=" == "/730/2" + InventoryQuery
  {
  }

  /** The query has no slash, so it stays inside the last path segment. */
  lemma QueryHasNoSlash(count: nat)
    ensures '/' !in InventoryQuery + Decimal(count)
  {
    var digits := Decimal(count);
    assert forall i :: 0 <= i < |digits| ==> '0' <= digits[i] <= '9';
    assert '/' !in InventoryQuery;
  }

  // ----- indices ----------------------------------------------------------

  /** The description key `ClassID + "_" + InstanceID`. */
  function DescKey(d: SteamDesc): string { d.classId + "_" + d.instanceId }

  /** The same key computed from an asset. */
  function AssetKey(a: SteamAsset): string { a.classId + "_" + a.instanceId }

  /** Properties are indexed by asset id. */
  function PropsKey(p: SteamPropsWrap): string { p.assetId }

  /** Element `i` is the last one whose key is `k`. */
  ghost predicate LastWithKey<T>(xs: seq<T>, key: T -> string, k: string, i: int)
  {
    0 <= i < |xs| && key(xs[i]) == k
    && forall j :: i < j < |xs| ==> key(xs[j]) != k
  }

  /** A Go map filled by `idx[key(x)] = x` over `xs` in order: it holds
      exactly the keys that occur, each bound to the last element with that
      key (last write wins). */
  function IndexBy<T>(xs: seq<T>, key: T -> string): (m: map<string, T>)
    ensures forall k :: k in m <==> exists i :: 0 <= i < |xs| && key(xs[i]) == k
    ensures forall k :: k in m ==> exists i :: LastWithKey(xs, key, k, i) && m[k] == xs[i]
    decreases |xs|
  {
    if xs == [] then map[]
    else
      var init := xs[..|xs| - 1];
      var x := xs[|xs| - 1];
      var m := IndexBy(init, key)[key(x) := x];
      assert LastWithKey(xs, key, key(x), |xs| - 1);
      LastWithKeySnoc(xs, key);
      assert forall i :: 0 <= i < |init| ==> init[i] == xs[i];
      m
  }

  /** A key other than the last element's has the same last position in
      the sequence as in its prefix. */
  lemma LastWithKeySnoc<T>(xs: seq<T>, key: T -> string)
    requires xs != []
    ensures forall k, i :: k != key(xs[|xs| - 1]) && LastWithKey(xs[..|xs| - 1], key, k, i) ==>
      LastWithKey(xs, key, k, i)
  {
  }

  /** The index-building loops of `FetchInventory` (`descIdx`, `propsIdx`). */
  method BuildIndex<T>(xs: seq<T>, key: T -> string) returns (m: map<string, T>)
    ensures m == IndexBy(xs, key)
  {
    m := map[];
    for i := 0 to |xs|
      invariant m == IndexBy(xs[..i], key)
    {
      assert xs[..i + 1][..i] == xs[..i];
      m := m[key(xs[i]) := xs[i]];
    }
    assert xs[..|xs|] == xs;
  }

  // ----- join -------------------------------------------------------------

  /** The preview item built from an asset and its description. The
      `Category == ""` fallback of the source is kept, although it is never
      taken (see MapTypeToCategory). */
  function JoinItem(a: SteamAsset, d: SteamDesc, propsIdx: map<string, SteamPropsWrap>): (it: SteamItem)
    ensures it.assetId == a.assetId && it.name == d.name && it.imageUrl == SteamIcon(d.iconUrl)
    ensures it.quality == MapRarityToQuality(TagOf(d.tags, "Rarity"))
    ensures it.wear == TagOf(d.tags, "Exterior")
    ensures it.category == MapTypeToCategory(TagOf(d.tags, "Type"))
    ensures it.category != "" && it.category in AssetValidation.AllowedCategory
    ensures a.assetId in propsIdx ==> it.wearValue == WearValueOf(propsIdx[a.assetId].props)
    ensures a.assetId !in propsIdx ==> it.wearValue == ""
  {
    var category := MapTypeToCategory(TagOf(d.tags, "Type"));
    var props := if a.assetId in propsIdx then propsIdx[a.assetId] else NoProps;
    SteamItem(a.assetId, d.name, SteamIcon(d.iconUrl),
              MapRarityToQuality(TagOf(d.tags, "Rarity")),
              TagOf(d.tags, "Exterior"),
              if category == "" then OtherCategory else category,
              WearValueOf(props.props))
  }

  /** The assets that have a description, in input order. */
  function Matched(assets: seq<SteamAsset>, descIdx: map<string, SteamDesc>): (ms: seq<SteamAsset>)
    ensures |ms| <= |assets|
    ensures forall a :: a in ms <==> a in assets && AssetKey(a) in descIdx
    decreases |assets|
  {
    if assets == [] then []
    else
      var init := assets[..|assets| - 1];
      var a := assets[|assets| - 1];
      assert assets == init + [a];
      Matched(init, descIdx) + (if AssetKey(a) in descIdx then [a] else [])
  }

  /** The items the join loop appends: one per matched asset. */
  function Joined(assets: seq<SteamAsset>, descIdx: map<string, SteamDesc>,
                  propsIdx: map<string, SteamPropsWrap>): (items: seq<SteamItem>)
    ensures |items| <= |assets|
    decreases |assets|
  {
    if assets == [] then []
    else
      var init := assets[..|assets| - 1];
      var a := assets[|assets| - 1];
      var key := AssetKey(a);
      Joined(init, descIdx, propsIdx)
        + (if key in descIdx then [JoinItem(a, descIdx[key], propsIdx)] else [])
  }

  /** Item `i` of the join is built from the `i`-th matched asset: the join
      keeps asset order and drops exactly the unmatched assets. */
  lemma {:induction false} JoinedFollowsMatched(assets: seq<SteamAsset>, descIdx: map<string, SteamDesc>,
                                                propsIdx: map<string, SteamPropsWrap>)
    ensures |Joined(assets, descIdx, propsIdx)| == |Matched(assets, descIdx)|
    ensures forall i :: 0 <= i < |Matched(assets, descIdx)| ==>
      var a := Matched(assets, descIdx)[i];
      AssetKey(a) in descIdx
      && Joined(assets, descIdx, propsIdx)[i] == JoinItem(a, descIdx[AssetKey(a)], propsIdx)
    decreases |assets|
  {
    if assets != [] {
      JoinedFollowsMatched(assets[..|assets| - 1], descIdx, propsIdx);
    }
  }

  /** The join drops nothing exactly when every asset's key has a
      description. */
  lemma JoinedLength(assets: seq<SteamAsset>, descIdx: map<string, SteamDesc>,
                     propsIdx: map<string, SteamPropsWrap>)
    ensures |Joined(assets, descIdx, propsIdx)| == |assets|
            <==> forall i :: 0 <= i < |assets| ==> AssetKey(assets[i]) in descIdx
  {
    JoinedFollowsMatched(assets, descIdx, propsIdx);
    MatchedAll(assets, descIdx);
  }

  /** Filtering keeps every asset exactly when every asset matches. */
  lemma {:induction false} MatchedAll(assets: seq<SteamAsset>, descIdx: map<string, SteamDesc>)
    ensures |Matched(assets, descIdx)| == |assets|
            <==> forall i :: 0 <= i < |assets| ==> AssetKey(assets[i]) in descIdx
    decreases |assets|
  {
    if assets != [] {
      var init := assets[..|assets| - 1];
      var a := assets[|assets| - 1];
      MatchedAll(init, descIdx);
      assert forall i :: 0 <= i < |init| ==> init[i] == assets[i];
      if AssetKey(a) !in descIdx {
        assert |Matched(assets, descIdx)| == |Matched(init, descIdx)| <= |init|;
      }
    }
  }

  /** The item list of a successful envelope. */
  function Items(inv: InventoryResp): seq<SteamItem>
  {
    Joined(inv.assets, IndexBy(inv.descriptions, DescKey), IndexBy(inv.assetProperties, PropsKey))
  }

  /** Item `it` of asset `a` is built from the last description with the
      asset's key: its name, its image through the CDN prefix, its quality
      and category through the two tables, its wear; its wear value comes
      from the last properties record with its id, or is "" when there is
      none; its category is a non-empty value of the creation form's
      vocabulary, and its quality is one too unless the rarity was unknown. */
  ghost predicate ItemFromIndices(a: SteamAsset, it: SteamItem,
                                  descs: seq<SteamDesc>, props: seq<SteamPropsWrap>)
  {
    && it.assetId == a.assetId
    && (exists j :: LastWithKey(descs, DescKey, AssetKey(a), j)
                    && it.name == descs[j].name
                    && it.imageUrl == SteamIcon(descs[j].iconUrl)
                    && it.quality == MapRarityToQuality(TagOf(descs[j].tags, "Rarity"))
                    && it.wear == TagOf(descs[j].tags, "Exterior")
                    && it.category == MapTypeToCategory(TagOf(descs[j].tags, "Type")))
    && it.category != "" && it.category in AssetValidation.AllowedCategory
    && (it.quality == "" || it.quality in AssetValidation.AllowedQuality)
    && (|| (exists j :: LastWithKey(props, PropsKey, a.assetId, j)
                        && it.wearValue == WearValueOf(props[j].props))
        || ((forall j :: 0 <= j < |props| ==> props[j].assetId != a.assetId)
            && it.wearValue == ""))
  }

  /** What every preview item carries: item `i` is built from the `i`-th
      matched asset through the two indices (see ItemFromIndices). */
  lemma ItemsFromLastDescription(inv: InventoryResp)
    ensures |Items(inv)| == |Matched(inv.assets, IndexBy(inv.descriptions, DescKey))|
    ensures forall i :: 0 <= i < |Items(inv)| ==>
      ItemFromIndices(Matched(inv.assets, IndexBy(inv.descriptions, DescKey))[i], Items(inv)[i],
                      inv.descriptions, inv.assetProperties)
  {
    var descIdx := IndexBy(inv.descriptions, DescKey);
    var propsIdx := IndexBy(inv.assetProperties, PropsKey);
    var ms := Matched(inv.assets, descIdx);
    JoinedFollowsMatched(inv.assets, descIdx, propsIdx);
    forall i | 0 <= i < |Items(inv)|
      ensures ItemFromIndices(ms[i], Items(inv)[i], inv.descriptions, inv.assetProperties)
    {
      JoinItemFromIndices(ms[i], inv.descriptions, inv.assetProperties);
    }
  }

  /** The join of one matched asset through the two indices. */
  lemma JoinItemFromIndices(a: SteamAsset, descs: seq<SteamDesc>, props: seq<SteamPropsWrap>)
    requires AssetKey(a) in IndexBy(descs, DescKey)
    ensures ItemFromIndices(a, JoinItem(a, IndexBy(descs, DescKey)[AssetKey(a)], IndexBy(props, PropsKey)),
                            descs, props)
  {
    var propsIdx := IndexBy(props, PropsKey);
    var it := JoinItem(a, IndexBy(descs, DescKey)[AssetKey(a)], propsIdx);
    if a.assetId !in propsIdx {
      assert forall j :: 0 <= j < |props| ==> PropsKey(props[j]) != a.assetId;
    }
  }

  // ----- the fetch --------------------------------------------------------

  /** The checks on the reply, in order, and the join when all pass. */
  function FetchOutcome(reply: HttpReply): (r: Result<seq<SteamItem>, FetchError>)
    ensures reply.TransportFailed? ==> r == Err(RemoteUnavailable)
    ensures reply.Responded? && reply.status != 200 ==> r == Err(RemoteRejected(reply.status, reply.body))
    ensures reply.Responded? && reply.status == 200 && reply.decoded.None? ==> r == Err(DecodeFailed)
    ensures r == Err(RemoteReportedFailure) <==>
      reply.Responded? && reply.status == 200 && reply.decoded.Some? && reply.decoded.value.success != 1
    ensures r.Ok? <==>
      reply.Responded? && reply.status == 200 && reply.decoded.Some? && reply.decoded.value.success == 1
    ensures r.Ok? ==> |r.value| <= |reply.decoded.value.assets|
  {
    match reply
    case TransportFailed => Err(RemoteUnavailable)
    case Responded(status, body, decoded) =>
      if status != 200 then Err(RemoteRejected(status, body))
      else if decoded.None? then Err(DecodeFailed)
      else if decoded.value.success != 1 then Err(RemoteReportedFailure)
      else Ok(Items(decoded.value))
  }

  /** The join loop of `FetchInventory`. */
  method JoinAssets(assets: seq<SteamAsset>, descIdx: map<string, SteamDesc>,
                    propsIdx: map<string, SteamPropsWrap>) returns (items: seq<SteamItem>)
    ensures items == Joined(assets, descIdx, propsIdx)
  {
    items := [];
    for i := 0 to |assets|
      invariant items == Joined(assets[..i], descIdx, propsIdx)
    {
      var a := assets[i];
      assert assets[..i + 1][..i] == assets[..i];
      var key := AssetKey(a);
      if key !in descIdx {
        continue;
      }
      var d := descIdx[key];
      var rarity := FindTag(d.tags, "Rarity");
      var wear := FindTag(d.tags, "Exterior");
      var typ := FindTag(d.tags, "Type");
      var props := if a.assetId in propsIdx then propsIdx[a.assetId] else NoProps;
      var wearValue := FindWearValue(props);
      var item := SteamItem(a.assetId, d.name, SteamIcon(d.iconUrl), MapRarityToQuality(rarity),
                            wear, MapTypeToCategory(typ), wearValue);
      if item.category == "" {
        item := item.(category := OtherCategory);
      }
      items := items + [item];
    }
    assert assets[..|assets|] == assets;
  }

  /** What `FetchInventory` returns for an identifier, a count and a
      remote: an empty identifier is refused before any request; otherwise
      the one request goes to the URL of the normalised identifier and
      clamped count, and its reply decides. */
  function FetchResult(steamID: string, count: int, remote: string -> HttpReply)
    : (r: Result<seq<SteamItem>, FetchError>)
    ensures r == Err(EmptySteamID) <==> steamID == ""
  {
    if steamID == "" then Err(EmptySteamID)
    else FetchOutcome(remote(InventoryURL(ExtractSteamID(steamID), ClampCount(count))))
  }

  /** Every previewed item has a non-empty category of the creation
      form's vocabulary, and a quality that is either empty (unknown
      rarity) or one of the form's colours. */
  lemma FetchedItemsVocabulary(steamID: string, count: int, remote: string -> HttpReply)
    requires FetchResult(steamID, count, remote).Ok?
    ensures forall it :: it in FetchResult(steamID, count, remote).value ==>
      && it.category != "" && it.category in AssetValidation.AllowedCategory
      && (it.quality == "" || it.quality in AssetValidation.AllowedQuality)
  {
    var reply := remote(InventoryURL(ExtractSteamID(steamID), ClampCount(count)));
    ItemsFromLastDescription(reply.decoded.value);
  }

  /** `FetchInventory`: reject an empty identifier, normalise it, clamp
      the count, ask `remote` for the inventory URL, check the reply and
      join. */
  method FetchInventory(steamID: string, count: int, remote: string -> HttpReply)
    returns (r: Result<seq<SteamItem>, FetchError>)
    ensures r == FetchResult(steamID, count, remote)
  {
    var id := NormalizeSteamID(steamID);
    if id.Err? {
      return Err(id.error);
    }
    var n := ClampCount(count);
    var reply := remote(InventoryURL(id.value, n));
    if reply.TransportFailed? {
      return Err(RemoteUnavailable);
    }
    if reply.status != 200 {
      return Err(RemoteRejected(reply.status, reply.body));
    }
    if reply.decoded.None? {
      return Err(DecodeFailed);
    }
    var inv := reply.decoded.value;
    if inv.success != 1 {
      return Err(RemoteReportedFailure);
    }
    var descIdx := BuildIndex(inv.descriptions, DescKey);
    var propsIdx := BuildIndex(inv.assetProperties, PropsKey);
    var items := JoinAssets(inv.assets, descIdx, propsIdx);
    return Ok(items);
  }
}
