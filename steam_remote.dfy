/** The decoded Steam inventory response (`steamInventoryResp` and the
    records inside it). JSON decoding is not part of this model: these
    values are what the decoder hands over. */
module SteamRemote {

  /** One owned item instance (`steamAsset`). */
  datatype SteamAsset = SteamAsset(
    appid: int,
    contextId: string,
    assetId: string,
    classId: string,
    instanceId: string,
    amount: string)

  /** One tag of a description (`steamTag`), e.g. category "Rarity" with
      localized tag name "军规级". */
  datatype SteamTag = SteamTag(
    category: string,
    localizedCategoryName: string,
    localizedTagName: string)

  /** The description shared by all instances of a class (`steamDesc`);
      its free-form `descriptions` list is not read by the pipeline and is
      not modelled. */
  datatype SteamDesc = SteamDesc(
    appid: int,
    classId: string,
    instanceId: string,
    iconUrl: string,
    name: string,
    typ: string,
    marketName: string,
    marketHash: string,
    tags: seq<SteamTag>)

  /** One named property value of an instance (`steamAssetPropKV`). */
  datatype SteamPropKV = SteamPropKV(
    propertyId: int,
    floatValue: string,
    intValue: string,
    name: string)

  /** The properties of one instance (`steamAssetPropsWrap`). */
  datatype SteamPropsWrap = SteamPropsWrap(
    appid: int,
    contextId: string,
    assetId: string,
    props: seq<SteamPropKV>)

  /** The Go zero value of a properties record, which a map miss yields. */
  const NoProps: SteamPropsWrap := SteamPropsWrap(0, "", "", [])

  /** The response envelope (`steamInventoryResp`). */
  datatype InventoryResp = InventoryResp(
    assets: seq<SteamAsset>,
    descriptions: seq<SteamDesc>,
    assetProperties: seq<SteamPropsWrap>,
    success: int)
}
