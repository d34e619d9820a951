# Steam inventory import, modelled in Dafny

This project models the Steam inventory import pipeline of the asset
platform's Go server and the field checks of its manual asset-creation
handler:

- **Preview** (`SteamService.FetchInventory`). An empty Steam id is refused.
  A full inventory URL is cut down to the id segment. The item count is
  clamped. One GET is issued, and its reply is checked: transport error,
  HTTP status, JSON decoding, then the `success` flag. Two last-write-wins
  indices are built: descriptions by `ClassID_InstanceID`, and property
  records by asset id. Every asset that has a description becomes one
  `SteamItem`, in asset order.
- **Taxonomy**. `steamIcon`, `findTag`, `mapRarityToQuality`,
  `mapTypeToCategory`, `findWearValue`, and the Content-Type extension rule
  of `downloadImage`.
- **Import** (`SteamService.ImportForUser`). Only organisation 2 may import.
  The importer fetches 1000 items and selects all of them, or those whose
  asset id was requested. For each selected item it tries to download the
  image, falling back to the default image. It then asks the asset store to
  create the asset, and silently skips items the store refuses.
- **Manual creation checks** (`AssetHandler.CreateAsset` up to the image
  upload) and `orgFromCtx`.

The network, the image download and the asset store are oracles passed in
as function parameters:

- `remote(url)` is the decoded reply to the inventory GET.
- `download(k, url)` is the name stem and Content-Type of a download whose
  bytes were written, or None.
- `create(k, request)` is the id and time the store gives an accepted
  request, or None.

`k` is the attempt number, so two calls can answer differently. The
model assumes that an accepted request is recorded with exactly the fields
it was given (`AssetModel.Recorded`). The store does not re-validate
anything in the model.

Modules, one per concern: `Outcomes` (Option/Result), `GoStrings` (Go's
`strings.Contains` and `strings.Split`), `AssetModel`, `AssetValidation`
(asset.go), `SteamRemote` (the decoded response records), `SteamTaxonomy`,
`SteamInventory` (the preview path) and `SteamImport` (the import path).
Every loop in the source is a method proved against a specification
function. The specification functions carry the lemmas.

## Model

| member | source | states |
|---|---|---|
| `GoStrings.Contains` | application/server/service/steam_service.go:105 | true exactly when some window of the string equals the substring |
| `GoStrings.Split` | application/server/service/steam_service.go:107 | at least one piece, and no piece contains the separator |
| `GoStrings.SplitAround` | application/server/service/steam_service.go:107 | a separator between `p` and `q` splits into the pieces of `p` followed by the pieces of `q` |
| `SteamInventory.NormalizeSteamID` | application/server/service/steam_service.go:102-114 | empty id is an error (and only then); otherwise the id of `ExtractSteamID`, computed by the segment loop with early exit |
| `SteamInventory.SegmentAfterInventory` | application/server/service/steam_service.go:107-113 | the segment after the first "inventory" segment that has a successor; the fallback exactly when there is no such segment |
| `SteamInventory.ExtractSteamID` | application/server/service/steam_service.go:105-114 | the input itself when it lacks the marker; otherwise the segment after the first "inventory" segment that has a successor |
| `SteamInventory.ExtractedSegmentFollowsInventory` | application/server/service/steam_service.go:105-114 | with the marker present, an "inventory" segment with a successor always exists, and the id is the segment after the first one; the whole-input fallback is unreachable |
| `SteamInventory.MarkerGivesInventorySegment` | application/server/service/steam_service.go:105-110 | when the input contains `steamcommunity.com/inventory/`, its `/`-split has an "inventory" segment followed by another segment |
| `SteamInventory.ExtractFromBrowseURL` | application/server/service/steam_service.go:105-114 | `https://steamcommunity.com/inventory/<id>/730/2` yields `<id>` for any slash-free id |
| `SteamInventory.ExtractFromAccountURL` | application/server/service/steam_service.go:105-114 | an account's inventory URL followed by any slash-free query yields the account id |
| `SteamInventory.ClampCount` | application/server/service/steam_service.go:115-117 | result is in 1..2000; it is the input when the input is in (0, 2000], and 1000 otherwise |
| `SteamInventory.ScenarioCountClamped` | application/server/service/steam_service.go:115-118 | a count of 5000 goes out as `count=1000` |
| `SteamInventory.Decimal` | application/server/service/steam_service.go:118 | `%d` of a natural number: digits only, a leading zero only for 0, and the digits read back as the number |
| `SteamInventory.InventoryURLRoundTrip` | application/server/service/steam_service.go:118 | the request URL is the account's browseable URL with `?l=schinese&count=` and digits that read back as the count; normalising it gives back the account id |
| `SteamInventory.IndexBy` | application/server/service/steam_service.go:137-145 | the index holds exactly the keys that occur, each bound to the last element with that key |
| `SteamInventory.BuildIndex` | application/server/service/steam_service.go:137-145 | the map-filling loop yields `IndexBy` of its input |
| `SteamInventory.Matched` | application/server/service/steam_service.go:148-152 | no longer than the assets; an asset is kept exactly when its key has a description |
| `SteamInventory.MatchedAll` | application/server/service/steam_service.go:148-152 | nothing is dropped exactly when every asset's key has a description |
| `SteamInventory.Joined` | application/server/service/steam_service.go:147-167 | never more items than assets |
| `SteamInventory.JoinedFollowsMatched` | application/server/service/steam_service.go:147-167 | item `i` is built from the `i`-th matched asset, so asset order is kept and only unmatched assets are dropped |
| `SteamInventory.JoinedLength` | application/server/service/steam_service.go:147-167 | output length equals the asset count exactly when every asset's `ClassID_InstanceID` key is a description key |
| `SteamInventory.JoinItem` | application/server/service/steam_service.go:153-165 | the item carries the asset id, the description's name, CDN icon, mapped rarity, exterior tag and mapped type; the category fallback is never taken, so the category is the table's non-empty form value; the wear value is that of the asset's properties record, or "" when the index has none (the zero value) |
| `SteamInventory.ItemsFromLastDescription` | application/server/service/steam_service.go:137-167 | item `i` has the `i`-th matched asset's id; its name, image, quality, wear and category come from the last description with that key; its wear value from the last properties record with that asset id, or "" when no record has it; its category is non-empty and in the form vocabulary; its quality is empty or in the form vocabulary |
| `SteamInventory.JoinAssets` | application/server/service/steam_service.go:147-168 | the join loop, with the `Category == ""` fallback kept, yields `Joined` |
| `SteamInventory.FetchOutcome` | application/server/service/steam_service.go:119-134 | transport error, non-200 status (with status and body), and decode failure are errors in that order; a decoded envelope with `success` other than 1 is an error (and only such an envelope); the result is Ok exactly when all checks pass, with no more items than assets |
| `SteamInventory.FetchResult` | application/server/service/steam_service.go:101-134 | an empty id is refused before any request, and only an empty id gets that error |
| `SteamInventory.FetchedItemsVocabulary` | application/server/service/steam_service.go:153-165 | every previewed item has a non-empty category from the form vocabulary, and its quality is empty or from the form vocabulary |
| `SteamInventory.FetchInventory` | application/server/service/steam_service.go:101-169 | equals `FetchResult`: one request, to the URL of the normalised id and clamped count |
| `SteamTaxonomy.SteamIcon` | application/server/service/steam_service.go:209-215 | the URL is empty exactly when the icon is; otherwise it is the CDN prefix followed by the icon, which can be read back |
| `SteamTaxonomy.TagOf` | application/server/service/steam_service.go:217-224 | the name of the first tag of the category, or "" when there is none |
| `SteamTaxonomy.FindTag` | application/server/service/steam_service.go:217-224 | the early-return scan equals `TagOf` |
| `SteamTaxonomy.MapRarityToQuality` | application/server/service/steam_service.go:226-245 | non-empty exactly for the 7 known rarities, and then one of the form's 7 colours (asset.go:57-59) |
| `SteamTaxonomy.RarityTableIsBijection` | application/server/service/steam_service.go:226-245 | the 7 rarities map one-to-one onto the 7 allowed colours |
| `SteamTaxonomy.MapTypeToCategory` | application/server/service/steam_service.go:247-272 | never empty; always one of the form's 10 categories (asset.go:63-65); the catch-all for exactly the unknown labels |
| `SteamTaxonomy.TypeSynonymsCollapse` | application/server/service/steam_service.go:253-268 | 狙击步枪→步枪, 微型冲锋枪/冲锋枪→冲锋枪, 贴纸/印花→印花, 特工/探员→探员 |
| `SteamTaxonomy.EveryCategoryReached` | application/server/service/steam_service.go:247-272 | every category of the creation form (asset.go:63-65) is the image of some type label |
| `SteamTaxonomy.WearValueOf` | application/server/service/steam_service.go:274-281 | "" exactly when no `磨损率` entry has a non-empty float value; otherwise the float value of the first such entry |
| `SteamTaxonomy.FindWearValue` | application/server/service/steam_service.go:274-281 | the early-return scan equals `WearValueOf` |
| `SteamTaxonomy.ImageExtension` | application/server/service/steam_service.go:297-301 | ".png" exactly when the Content-Type contains "png", ".jpg" exactly when it does not |
| `SteamImport.SavedName` | application/server/service/steam_service.go:297-302 | the saved name is the stem plus ".png" or ".jpg", and ".png" exactly when the Content-Type mentions png |
| `SteamImport.ImageFor` | application/server/service/steam_service.go:190-195 | the default image when the item has no URL or the download failed; otherwise the saved name of the download |
| `SteamImport.RequestOf` | application/server/service/steam_service.go:196-199 | the create arguments: the item's fields, the chosen image, the user as author and owner, the import description and the org |
| `SteamImport.Outcome` | application/server/service/steam_service.go:196-204 | one recorded asset exactly when the store accepts the request, none when it refuses |
| `SteamImport.Selected` | application/server/service/steam_service.go:180-189 | no more items than fetched |
| `SteamImport.SelectionPolicy` | application/server/service/steam_service.go:180-189 | an empty selection keeps every item; otherwise exactly the fetched items whose id was selected, and unknown ids are ignored |
| `SteamImport.BuildNeed` | application/server/service/steam_service.go:181-184 | the `need` map holds exactly the selected ids, all mapped to true |
| `SteamImport.Attempts` | application/server/service/steam_service.go:186-199 | one create attempt per selected item |
| `SteamImport.Committed` | application/server/service/steam_service.go:196-205 | no more assets than attempts |
| `SteamImport.EveryAttemptCreates` | application/server/service/steam_service.go:190-199 | attempt `k` carries item `k`'s fields, the user as author and owner, the import description and the org; its image is the downloaded name, or the default image when there is no URL or the download failed |
| `SteamImport.CommittedAreAccepted` | application/server/service/steam_service.go:196-205 | every created asset is the record of an attempt the store accepted; every accepted attempt is kept whatever happened to the other attempts (a refusal skips one item, the loop goes on); when every attempt is accepted, none is skipped |
| `SteamImport.CommittedCount` | application/server/service/steam_service.go:196-205 | exactly one asset per attempt the store accepted |
| `SteamImport.CountIgnoresDownloads` | application/server/service/steam_service.go:190-205 | when the store's verdict on an attempt does not depend on the request, download outcomes do not change how many assets are created |
| `SteamImport.CommittedFromItems` | application/server/service/steam_service.go:190-205 | every created asset has the user as author and owner, the import description, the default or a downloaded image, and one selected item's category and quality |
| `SteamImport.ImportResult` | application/server/service/steam_service.go:172-207 | Forbidden exactly when the org is not 2, whatever the oracles say; a failed fetch fails the import; Ok exactly when the org is 2 and the fetch succeeded, so refused creates never fail the import; no more assets than selected items |
| `SteamImport.ImportedAssets` | application/server/service/steam_service.go:172-207 | every imported asset has author = owner = user, the import description, the default or a downloaded image, a form category, and an empty or form quality; exactly one asset per accepted attempt, every accepted attempt's record is present, at most one asset per selected item, and exactly one when the store accepts everything (no deduplication) |
| `SteamImport.ImportedPerAcceptedAttempt` | application/server/service/steam_service.go:186-207 | a successful import returns exactly one asset per attempt the store accepted, every accepted attempt's record among them, and one per selected item when the store accepts everything |
| `SteamImport.ImportSkipsFormValidation` | application/server/service/steam_service.go:196-199 | an imported item with an unknown rarity reaches the store with an empty quality, which the manual form would refuse |
| `SteamImport.ImportOne` | application/server/service/steam_service.go:190-205 | one loop pass: the create attempt with the downloaded or default image; the asset when the store accepts it, nothing otherwise |
| `SteamImport.ImportItems` | application/server/service/steam_service.go:180-206 | the selection loop yields the committed assets of the attempts for the selected items |
| `SteamImport.ImportForUser` | application/server/service/steam_service.go:172-207 | equals `ImportResult` |
| `AssetValidation.ValidateCreate` | application/server/api/asset.go:29-85 | each error happens exactly when every earlier check passed and its own fails, in the order user, org, org = 2, name, quality, wear, category, empty wear value, wear-value range; on success the fields are in the closed sets and an empty description becomes 暂无描述 |
| `AssetValidation.OrgFromCtx` | application/server/api/asset.go:121-128 | the context's value when it is an int > 0, and 1 otherwise; always ≥ 1 |
| `AssetModel.Recorded` | application/server/service/steam_service.go:196-204 | assumption about the store: the created asset carries every field of the request and the store's id and time |

## Left out

- HTTP transport setup in `NewSteamService`: the proxy from the environment or `STEAM_HTTP_PROXY`, and the timeouts. This is configuration, not logic.
- The GET itself and JSON decoding. The decoded reply is the `remote` oracle's answer, as `HttpReply`.
- `downloadImage`'s network read, UUID generation, directory creation and file write. These are I/O. The `download` oracle stands for them. Only the naming rule (stem plus extension) is modelled.
- `AssetService.CreateAsset`. It is not part of this model. The `create` oracle stands for it, and an accepted request is assumed to be recorded with the fields it was given.
- `model.DefaultImageName` and `model.DefaultImageFolder`. They are not part of this model. The default image is the `defaultImage` parameter.
- `strconv.ParseFloat` and the 0–1 range test on the wear value. This is floating-point parsing. The `unitFloat` parameter stands for it: the value parses and is neither below 0 nor above 1, so "NaN" passes as in the source.
- `AssetHandler.CreateAsset` after validation: the image upload and save, the store call and the responses (asset.go:87-113). This is HTTP and file plumbing.
- The remaining handlers of asset.go (lines 130-229) and all of steam.go. These are routing.
- `AssetValidation.ValidateCreate`: a context `org` that is present but not an int makes Go panic at the type assertion. The model takes the context values as `Option<int>` and does not model the panic.
- Error values are enumerations. The Go error strings and the HTTP status classes are not modelled.
- `steamDesc.Descriptions` is never read by the code, so it is not modelled. `asset_model.go` is mirrored as the `Asset` datatype, with the timestamp as an opaque integer.
- Strings are sequences of characters. Go's `strings` functions work on UTF-8 bytes, which gives the same results for well-formed text.
- Nil and empty slices are not distinguished.
- The composite key `ClassID + "_" + InstanceID` is modelled as the same string concatenation. Ids that contain `_` can therefore collide, exactly as in the source.
- An input such as `https://steamcommunity.com/inventory/` passes the empty-id check and then extracts an empty id. The model reproduces this as written.
