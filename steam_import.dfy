/** `SteamService.ImportForUser`: the creator-organisation gate, the
    fetch, the selection, and the best-effort loop that downloads an image
    and asks the asset store to create one asset per selected item.

    The two collaborators are oracles indexed by the attempt number `k`
    (the k-th selected item), so that repeated calls may answer
    differently: `download(k, url)` is the fresh name stem and the
    Content-Type of a download whose bytes were written, or None when the
    request, the status or the write failed;
    `create(k, req)` is the id and time the store gives an accepted request,
    or None when the store refused it. */
module SteamImport {
  import opened Outcomes
  import opened AssetModel
  import opened SteamInventory
  import opened SteamTaxonomy
  import opened GoStrings
  import AssetValidation

  /** Description given to every imported asset. */
  const ImportDescription: string := "从 Steam 导入"

  /** The count the importer asks Steam for. */
  const ImportCount: int := 1000

  datatype ImportError =
    | Forbidden                   // "仅创作者组织(Org2)可导入"
    | FetchFailed(cause: FetchError)

  /** The selection rule: an empty selection takes every item, otherwise
      the item's asset id must be selected. */
  predicate IsSelected(it: SteamItem, sel: seq<string>)
  {
    |sel| == 0 || it.assetId in sel
  }

  /** The items the loop goes on with, in fetch order. */
  function Selected(items: seq<SteamItem>, sel: seq<string>): (xs: seq<SteamItem>)
    ensures |xs| <= |items|
    decreases |items|
  {
    if items == [] then []
    else
      var init := items[..|items| - 1];
      var it := items[|items| - 1];
      Selected(init, sel) + (if IsSelected(it, sel) then [it] else [])
  }

  /** The selection policy: an empty selection keeps every item; otherwise
      exactly the fetched items whose id was selected are kept (ids not in
      the catalog are ignored). */
  lemma {:induction false} SelectionPolicy(items: seq<SteamItem>, sel: seq<string>)
    ensures |sel| == 0 ==> Selected(items, sel) == items
    ensures forall x :: x in Selected(items, sel) <==> x in items && IsSelected(x, sel)
    decreases |items|
  {
    if items != [] {
      var init := items[..|items| - 1];
      SelectionPolicy(init, sel);
      assert items == init + [items[|items| - 1]];
    }
  }

  /** A download whose bytes were written: the random name stem and the
      response's Content-Type header. */
  datatype Download = Download(uuid: string, contentType: string)

  /** The file name `downloadImage` returns: the stem followed by the
      extension the Content-Type calls for. */
  function SavedName(d: Download): (name: string)
    ensures name == d.uuid + ".png" || name == d.uuid + ".jpg"
    ensures name == d.uuid + ".png" <==> Contains(d.contentType, "png")
  {
    var name := d.uuid + ImageExtension(d.contentType);
    assert name[|d.uuid|..] == ImageExtension(d.contentType);
    assert (d.uuid + ".png")[|d.uuid|..] == ".png";
    name
  }

  /** The image of attempt `k`: the downloaded name when there is a URL
      and the download succeeded, the default image otherwise. */
  function ImageFor(k: nat, url: string, defaultImage: string,
                    download: (nat, string) -> Option<Download>): (name: string)
    ensures url == "" || download(k, url).None? ==> name == defaultImage
    ensures url != "" && download(k, url).Some? ==> name == SavedName(download(k, url).value)
  {
    if url == "" then defaultImage
    else match download(k, url)
      case Some(d) => SavedName(d)
      case None => defaultImage
  }

  /** The create request of attempt `k` for item `it`: the item's fields,
      its image, the importing user as author and owner, the import
      description and the organisation. */
  function RequestOf(k: nat, it: SteamItem, userID: int, org: int, defaultImage: string,
                     download: (nat, string) -> Option<Download>): (q: CreateRequest)
    ensures q.authorId == userID && q.ownerId == userID && q.org == org
    ensures q.description == ImportDescription
    ensures q.name == it.name && q.quality == it.quality && q.wear == it.wear
    ensures q.category == it.category && q.wearValue == it.wearValue
    ensures q.imageName == ImageFor(k, it.imageUrl, defaultImage, download)
  {
    CreateRequest(it.name, ImageFor(k, it.imageUrl, defaultImage, download), userID, userID,
                  ImportDescription, it.quality, it.wear, it.category, it.wearValue, org)
  }

  /** The create requests, one per selected item in order. */
  function Attempts(xs: seq<SteamItem>, userID: int, org: int, defaultImage: string,
                    download: (nat, string) -> Option<Download>): (reqs: seq<CreateRequest>)
    ensures |reqs| == |xs|
    decreases |xs|
  {
    if xs == [] then []
    else
      var k := |xs| - 1;
      Attempts(xs[..k], userID, org, defaultImage, download)
        + [RequestOf(k, xs[k], userID, org, defaultImage, download)]
  }

  /** The asset attempt `k` leaves behind: the recorded request when the
      store accepts it, nothing otherwise. */
  function Outcome(k: nat, req: CreateRequest, create: (nat, CreateRequest) -> Option<Stamp>)
    : (out: seq<Asset>)
    ensures out == [] <==> create(k, req).None?
    ensures |out| <= 1
    ensures forall a :: a in out ==> a == Recorded(req, create(k, req).value)
  {
    match create(k, req)
    case Some(st) => [Recorded(req, st)]
    case None => []
  }

  /** The assets the store accepted, in attempt order; refused requests
      are skipped. */
  function Committed(reqs: seq<CreateRequest>, create: (nat, CreateRequest) -> Option<Stamp>)
    : (assets: seq<Asset>)
    ensures |assets| <= |reqs|
    decreases |reqs|
  {
    if reqs == [] then []
    else
      var k := |reqs| - 1;
      Committed(reqs[..k], create) + Outcome(k, reqs[k], create)
  }

  /** What `ImportForUser` returns. */
  function ImportResult(userID: int, org: int, steamID: string, sel: seq<string>,
                        remote: string -> HttpReply, defaultImage: string,
                        download: (nat, string) -> Option<Download>,
                        create: (nat, CreateRequest) -> Option<Stamp>)
    : (r: Result<seq<Asset>, ImportError>)
    ensures org != AssetValidation.CreatorOrg ==> r == Err(Forbidden)
    ensures org == AssetValidation.CreatorOrg && FetchResult(steamID, ImportCount, remote).Err? ==>
      r == Err(FetchFailed(FetchResult(steamID, ImportCount, remote).error))
    ensures r == Err(Forbidden) <==> org != AssetValidation.CreatorOrg
    ensures r.Ok? <==> org == AssetValidation.CreatorOrg && FetchResult(steamID, ImportCount, remote).Ok?
    ensures r.Ok? ==>
      |r.value| <= |Selected(FetchResult(steamID, ImportCount, remote).value, sel)|
  {
    if org != AssetValidation.CreatorOrg then Err(Forbidden)
    else match FetchResult(steamID, ImportCount, remote)
      case Err(e) => Err(FetchFailed(e))
      case Ok(items) =>
        Ok(Committed(Attempts(Selected(items, sel), userID, org, defaultImage, download), create))
  }

  /** Every selected item gets a create attempt, whatever its download
      did: attempt `k` carries item `k`'s fields, the importing user as
      author and owner, the import description and the organisation, and
      the downloaded image name or, when there is no URL or the download
      failed, the default image. */
  lemma {:induction false} EveryAttemptCreates(xs: seq<SteamItem>, userID: int, org: int, defaultImage: string,
                                               download: (nat, string) -> Option<Download>)
    ensures forall k :: 0 <= k < |xs| ==>
      var q := Attempts(xs, userID, org, defaultImage, download)[k];
      var url := xs[k].imageUrl;
      && q.authorId == userID && q.ownerId == userID && q.org == org
      && q.description == ImportDescription
      && q.name == xs[k].name && q.quality == xs[k].quality && q.wear == xs[k].wear
      && q.category == xs[k].category && q.wearValue == xs[k].wearValue
      && (url == "" || download(k, url).None? ==> q.imageName == defaultImage)
      && (url != "" && download(k, url).Some? ==> q.imageName == SavedName(download(k, url).value))
    decreases |xs|
  {
    if xs != [] {
      var n := |xs| - 1;
      EveryAttemptCreates(xs[..n], userID, org, defaultImage, download);
      assert forall k :: 0 <= k < n ==> xs[..n][k] == xs[k];
    }
  }

  /** The store's verdicts: exactly the committed assets are the records
      of the accepted attempts. Every committed asset is the record of an
      accepted attempt, every accepted attempt is kept whatever the store
      did with the others (a refusal skips one item and the loop goes on),
      and when the store accepts every attempt nothing is skipped. */
  lemma {:induction false} CommittedAreAccepted(reqs: seq<CreateRequest>,
                                                create: (nat, CreateRequest) -> Option<Stamp>)
    ensures forall a :: a in Committed(reqs, create) ==>
      exists k :: 0 <= k < |reqs| && create(k, reqs[k]).Some?
                  && a == Recorded(reqs[k], create(k, reqs[k]).value)
    ensures forall k :: 0 <= k < |reqs| && create(k, reqs[k]).Some? ==>
      Recorded(reqs[k], create(k, reqs[k]).value) in Committed(reqs, create)
    ensures (forall k :: 0 <= k < |reqs| ==> create(k, reqs[k]).Some?) ==>
      |Committed(reqs, create)| == |reqs|
  {
    CommittedFromAccepted(reqs, create);
    AcceptedAreCommitted(reqs, create);
  }

  /** Every committed asset is the record of an accepted attempt. */
  lemma {:induction false} CommittedFromAccepted(reqs: seq<CreateRequest>,
                                                 create: (nat, CreateRequest) -> Option<Stamp>)
    ensures forall a :: a in Committed(reqs, create) ==>
      exists k :: 0 <= k < |reqs| && create(k, reqs[k]).Some?
                  && a == Recorded(reqs[k], create(k, reqs[k]).value)
    decreases |reqs|
  {
    if reqs != [] {
      var n := |reqs| - 1;
      CommittedFromAccepted(reqs[..n], create);
      assert forall k :: 0 <= k < n ==> reqs[..n][k] == reqs[k];
    }
  }

  /** Every accepted attempt is committed, and with every attempt
      accepted nothing is skipped. */
  lemma {:induction false} AcceptedAreCommitted(reqs: seq<CreateRequest>,
                                                create: (nat, CreateRequest) -> Option<Stamp>)
    ensures forall k :: 0 <= k < |reqs| && create(k, reqs[k]).Some? ==>
      Recorded(reqs[k], create(k, reqs[k]).value) in Committed(reqs, create)
    ensures (forall k :: 0 <= k < |reqs| ==> create(k, reqs[k]).Some?) ==>
      |Committed(reqs, create)| == |reqs|
    decreases |reqs|
  {
    if reqs != [] {
      var n := |reqs| - 1;
      AcceptedAreCommitted(reqs[..n], create);
      assert forall k :: 0 <= k < n ==> reqs[..n][k] == reqs[k];
    }
  }

  /** The attempts the store accepted. */
  ghost function AcceptedAttempts(reqs: seq<CreateRequest>, create: (nat, CreateRequest) -> Option<Stamp>)
    : set<nat>
  {
    set k: nat | k < |reqs| && create(k, reqs[k]).Some?
  }

  /** One asset per accepted attempt: no more, no fewer. */
  lemma {:induction false} CommittedCount(reqs: seq<CreateRequest>,
                                          create: (nat, CreateRequest) -> Option<Stamp>)
    ensures |Committed(reqs, create)| == |AcceptedAttempts(reqs, create)|
    decreases |reqs|
  {
    if reqs != [] {
      var n := |reqs| - 1;
      CommittedCount(reqs[..n], create);
      assert n !in AcceptedAttempts(reqs[..n], create);
      AcceptedSnoc(reqs, create);
    }
  }

  /** The last attempt joins the accepted ones exactly when the store
      accepts it. */
  lemma AcceptedSnoc(reqs: seq<CreateRequest>, create: (nat, CreateRequest) -> Option<Stamp>)
    requires reqs != []
    ensures var n := |reqs| - 1;
      AcceptedAttempts(reqs, create)
      == AcceptedAttempts(reqs[..n], create) + (if create(n, reqs[n]).Some? then {n} else {})
  {
    var n := |reqs| - 1;
    var before := AcceptedAttempts(reqs[..n], create);
    var after := AcceptedAttempts(reqs, create);
    var extra: set<nat> := if create(n, reqs[n]).Some? then {n} else {};
    forall k: nat
      ensures k in after <==> k in before + extra
    {
      if k < n {
        assert reqs[..n][k] == reqs[k];
      }
    }
  }

  /** Image failures do not change how many assets are created: when the
      store's verdict on attempt `k` does not depend on the request, two
      download oracles give the same number of assets. */
  lemma {:induction false} CountIgnoresDownloads(xs: seq<SteamItem>, userID: int, org: int,
                                                 defaultImage: string,
                                                 download1: (nat, string) -> Option<Download>,
                                                 download2: (nat, string) -> Option<Download>,
                                                 create: (nat, CreateRequest) -> Option<Stamp>)
    requires forall k: nat, q1, q2 :: create(k, q1).Some? == create(k, q2).Some?
    ensures |Committed(Attempts(xs, userID, org, defaultImage, download1), create)|
            == |Committed(Attempts(xs, userID, org, defaultImage, download2), create)|
    decreases |xs|
  {
    if xs != [] {
      var n := |xs| - 1;
      CountIgnoresDownloads(xs[..n], userID, org, defaultImage, download1, download2, create);
    }
  }

  /** An image name the download oracle produced for some attempt. */
  ghost predicate Downloaded(download: (nat, string) -> Option<Download>, name: string)
  {
    exists k: nat, url :: download(k, url).Some? && name == SavedName(download(k, url).value)
  }

  /** Every asset committed from the attempts for `xs` is the record of
      one selected item: its fields, the importing user as author and
      owner, the import description, and the downloaded or default image. */
  lemma CommittedFromItems(xs: seq<SteamItem>, userID: int, org: int, defaultImage: string,
                           download: (nat, string) -> Option<Download>,
                           create: (nat, CreateRequest) -> Option<Stamp>)
    ensures forall a :: a in Committed(Attempts(xs, userID, org, defaultImage, download), create) ==>
      && a.authorId == userID && a.ownerId == userID
      && a.description == ImportDescription
      && (a.imageName == defaultImage || Downloaded(download, a.imageName))
      && exists k :: 0 <= k < |xs| && a.category == xs[k].category && a.quality == xs[k].quality
  {
    var reqs := Attempts(xs, userID, org, defaultImage, download);
    EveryAttemptCreates(xs, userID, org, defaultImage, download);
    CommittedAreAccepted(reqs, create);
    forall a | a in Committed(reqs, create)
      ensures a.authorId == userID && a.ownerId == userID && a.description == ImportDescription
      ensures a.imageName == defaultImage || Downloaded(download, a.imageName)
      ensures exists k :: 0 <= k < |xs| && a.category == xs[k].category && a.quality == xs[k].quality
    {
      var k :| 0 <= k < |reqs| && create(k, reqs[k]).Some?
               && a == Recorded(reqs[k], create(k, reqs[k]).value);
      if a.imageName != defaultImage {
        assert download(k, xs[k].imageUrl).Some?;
      }
    }
  }

  /** What every imported asset carries: the importing user as author and
      owner, the import description, the downloaded or the default image,
      a non-empty category of the creation form's vocabulary, and a
      quality that is one of the form's colours or empty. No more assets
      than selected items are created, and every selected item is created
      when the store accepts everything: nothing deduplicates. There is
      exactly one asset per attempt the store accepted, and an accepted
      attempt is kept whatever the store did with the other attempts. */
  lemma ImportedAssets(userID: int, org: int, steamID: string, sel: seq<string>,
                       remote: string -> HttpReply, defaultImage: string,
                       download: (nat, string) -> Option<Download>,
                       create: (nat, CreateRequest) -> Option<Stamp>)
    requires ImportResult(userID, org, steamID, sel, remote, defaultImage, download, create).Ok?
    ensures var assets := ImportResult(userID, org, steamID, sel, remote, defaultImage, download, create).value;
      forall a :: a in assets ==>
        && a.authorId == userID && a.ownerId == userID
        && a.description == ImportDescription
        && (a.imageName == defaultImage || Downloaded(download, a.imageName))
        && a.category != "" && a.category in AssetValidation.AllowedCategory
        && (a.quality == "" || a.quality in AssetValidation.AllowedQuality)
    ensures var assets := ImportResult(userID, org, steamID, sel, remote, defaultImage, download, create).value;
      var items := FetchResult(steamID, ImportCount, remote).value;
      && |assets| <= |Selected(items, sel)|
      && ((forall k: nat, q :: create(k, q).Some?) ==> |assets| == |Selected(items, sel)|)
    ensures var assets := ImportResult(userID, org, steamID, sel, remote, defaultImage, download, create).value;
      var items := FetchResult(steamID, ImportCount, remote).value;
      var reqs := Attempts(Selected(items, sel), userID, org, defaultImage, download);
      && |assets| == |AcceptedAttempts(reqs, create)|
      && forall k :: 0 <= k < |reqs| && create(k, reqs[k]).Some? ==>
           Recorded(reqs[k], create(k, reqs[k]).value) in assets
  {
    ImportedPerAcceptedAttempt(userID, org, steamID, sel, remote, defaultImage, download, create);
    var items := FetchResult(steamID, ImportCount, remote).value;
    var xs := Selected(items, sel);
    FetchedItemsVocabulary(steamID, ImportCount, remote);
    SelectionPolicy(items, sel);
    CommittedFromItems(xs, userID, org, defaultImage, download, create);
    CommittedVocabulary(xs, userID, org, defaultImage, download, create);
  }

  /** Assets committed from items of the form's vocabulary are of that
      vocabulary too. */
  lemma CommittedVocabulary(xs: seq<SteamItem>, userID: int, org: int, defaultImage: string,
                            download: (nat, string) -> Option<Download>,
                            create: (nat, CreateRequest) -> Option<Stamp>)
    requires forall it :: it in xs ==>
      && it.category != "" && it.category in AssetValidation.AllowedCategory
      && (it.quality == "" || it.quality in AssetValidation.AllowedQuality)
    ensures forall a :: a in Committed(Attempts(xs, userID, org, defaultImage, download), create) ==>
      && a.category != "" && a.category in AssetValidation.AllowedCategory
      && (a.quality == "" || a.quality in AssetValidation.AllowedQuality)
  {
    CommittedFromItems(xs, userID, org, defaultImage, download, create);
    forall a | a in Committed(Attempts(xs, userID, org, defaultImage, download), create)
      ensures a.category != "" && a.category in AssetValidation.AllowedCategory
      ensures a.quality == "" || a.quality in AssetValidation.AllowedQuality
    {
      var k :| 0 <= k < |xs| && a.category == xs[k].category && a.quality == xs[k].quality;
      assert xs[k] in xs;
    }
  }

  /** The import's assets are one per attempt the store accepted, every
      accepted attempt's record is among them, and every selected item
      gives one when the store accepts everything. */
  lemma ImportedPerAcceptedAttempt(userID: int, org: int, steamID: string, sel: seq<string>,
                                   remote: string -> HttpReply, defaultImage: string,
                                   download: (nat, string) -> Option<Download>,
                                   create: (nat, CreateRequest) -> Option<Stamp>)
    requires ImportResult(userID, org, steamID, sel, remote, defaultImage, download, create).Ok?
    ensures var assets := ImportResult(userID, org, steamID, sel, remote, defaultImage, download, create).value;
      var items := FetchResult(steamID, ImportCount, remote).value;
      var reqs := Attempts(Selected(items, sel), userID, org, defaultImage, download);
      && |assets| == |AcceptedAttempts(reqs, create)|
      && forall k :: 0 <= k < |reqs| && create(k, reqs[k]).Some? ==>
           Recorded(reqs[k], create(k, reqs[k]).value) in assets
    ensures var assets := ImportResult(userID, org, steamID, sel, remote, defaultImage, download, create).value;
      var items := FetchResult(steamID, ImportCount, remote).value;
      (forall k: nat, q :: create(k, q).Some?) ==> |assets| == |Selected(items, sel)|
  {
    var items := FetchResult(steamID, ImportCount, remote).value;
    var reqs := Attempts(Selected(items, sel), userID, org, defaultImage, download);
    CommittedAreAccepted(reqs, create);
    CommittedCount(reqs, create);
  }

  /** The importer does not run the creation form's checks: an item whose
      rarity was unknown reaches the store with an empty quality, which
      the manual creation path would refuse. */
  lemma ImportSkipsFormValidation(k: nat, it: SteamItem, userID: int, defaultImage: string,
                                  download: (nat, string) -> Option<Download>, unitFloat: string -> bool)
    requires it.name != "" && it.quality == ""
    ensures var q := RequestOf(k, it, userID, AssetValidation.CreatorOrg, defaultImage, download);
      AssetValidation.ValidateCreate(
        Some(userID), Some(q.org),
        AssetValidation.CreateForm(q.name, q.description, q.quality, q.wear, q.category, q.wearValue),
        unitFloat) == Err(AssetValidation.BadQuality)
  {
  }

  /** The `need` set of `ImportForUser`: every selected id maps to true. */
  method BuildNeed(sel: seq<string>) returns (need: map<string, bool>)
    ensures forall id :: id in need <==> id in sel
    ensures forall id :: id in need ==> need[id]
  {
    need := map[];
    for i := 0 to |sel|
      invariant forall id :: id in need <==> id in sel[..i]
      invariant forall id :: id in need ==> need[id]
    {
      assert sel[..i + 1] == sel[..i] + [sel[i]];
      need := need[sel[i] := true];
    }
    assert sel[..|sel|] == sel;
  }

  /** One more item of the fetch adds it to the selection when it is
      selected, and nothing otherwise. */
  lemma SelectedPrefix(items: seq<SteamItem>, i: int, sel: seq<string>)
    requires 0 <= i < |items|
    ensures Selected(items[..i + 1], sel)
            == Selected(items[..i], sel) + (if IsSelected(items[i], sel) then [items[i]] else [])
  {
    assert items[..i + 1][..i] == items[..i];
  }

  /** One more selected item adds one attempt and, when the store accepts
      it, one asset. */
  lemma ImportStep(xs: seq<SteamItem>, it: SteamItem, userID: int, org: int, defaultImage: string,
                   download: (nat, string) -> Option<Download>,
                   create: (nat, CreateRequest) -> Option<Stamp>)
    ensures Committed(Attempts(xs + [it], userID, org, defaultImage, download), create)
            == Committed(Attempts(xs, userID, org, defaultImage, download), create)
               + Outcome(|xs|, RequestOf(|xs|, it, userID, org, defaultImage, download), create)
  {
    assert (xs + [it])[..|xs|] == xs;
    var reqs := Attempts(xs + [it], userID, org, defaultImage, download);
    assert reqs[..|xs|] == Attempts(xs, userID, org, defaultImage, download);
  }

  /** One pass of the loop body for a selected item: the image download
      with its fallback, then the create call. */
  method ImportOne(k: nat, it: SteamItem, userID: int, org: int, defaultImage: string,
                   download: (nat, string) -> Option<Download>,
                   create: (nat, CreateRequest) -> Option<Stamp>)
    returns (out: seq<Asset>)
    ensures out == Outcome(k, RequestOf(k, it, userID, org, defaultImage, download), create)
  {
    var imageName := defaultImage;
    if it.imageUrl != "" {
      var saved := download(k, it.imageUrl);
      if saved.Some? {
        imageName := SavedName(saved.value);
      }
    }
    var req := CreateRequest(it.name, imageName, userID, userID, ImportDescription,
                             it.quality, it.wear, it.category, it.wearValue, org);
    var stamp := create(k, req);
    if stamp.None? {
      return [];
    }
    return [Recorded(req, stamp.value)];
  }

  /** The per-item loop of `ImportForUser`. */
  method ImportItems(items: seq<SteamItem>, sel: seq<string>, userID: int, org: int,
                     defaultImage: string, download: (nat, string) -> Option<Download>,
                     create: (nat, CreateRequest) -> Option<Stamp>)
    returns (created: seq<Asset>)
    ensures created == Committed(Attempts(Selected(items, sel), userID, org, defaultImage, download), create)
  {
    var chooseAll := |sel| == 0;
    var need := BuildNeed(sel);
    created := [];
    var k := 0;
    for i := 0 to |items|
      invariant k == |Selected(items[..i], sel)|
      invariant created
                == Committed(Attempts(Selected(items[..i], sel), userID, org, defaultImage, download), create)
    {
      var it := items[i];
      SelectedPrefix(items, i, sel);
      ghost var before := Selected(items[..i], sel);
      if !chooseAll && !(it.assetId in need && need[it.assetId]) {
        assert !IsSelected(it, sel);
        assert Selected(items[..i + 1], sel) == before;
        continue;
      }
      assert IsSelected(it, sel);
      assert Selected(items[..i + 1], sel) == before + [it];
      var out := ImportOne(k, it, userID, org, defaultImage, download, create);
      ImportStep(before, it, userID, org, defaultImage, download, create);
      created := created + out;
      k := k + 1;
    }
    assert items[..|items|] == items;
  }

  /** `ImportForUser`: refuse any organisation but the creator one before
      fetching, fetch 1000 items, and for each selected item download its
      image (falling back to `defaultImage`) and ask the store to create
      the asset, skipping the items the store refuses. */
  method ImportForUser(userID: int, org: int, steamID: string, sel: seq<string>,
                       remote: string -> HttpReply, defaultImage: string,
                       download: (nat, string) -> Option<Download>,
                       create: (nat, CreateRequest) -> Option<Stamp>)
    returns (r: Result<seq<Asset>, ImportError>)
    ensures r == ImportResult(userID, org, steamID, sel, remote, defaultImage, download, create)
  {
    if org != AssetValidation.CreatorOrg {
      return Err(Forbidden);
    }
    var fetched := FetchInventory(steamID, ImportCount, remote);
    if fetched.Err? {
      return Err(FetchFailed(fetched.error));
    }
    var created := ImportItems(fetched.value, sel, userID, org, defaultImage, download, create);
    return Ok(created);
  }
}
