/** The domain asset record and the argument list of the asset store's
    create operation. The store itself is not part of this model. */
module AssetModel {

  /** A domain asset as the store returns it; the creation time is an
      opaque clock reading. */
  datatype Asset = Asset(
    id: string,
    name: string,
    imageName: string,
    authorId: int,
    ownerId: int,
    description: string,
    quality: string,
    wear: string,
    category: string,
    wearValue: string,
    timeStamp: int)

  /** The arguments of `AssetService.CreateAsset`, in its parameter order. */
  datatype CreateRequest = CreateRequest(
    name: string,
    imageName: string,
    authorId: int,
    ownerId: int,
    description: string,
    quality: string,
    wear: string,
    category: string,
    wearValue: string,
    org: int)

  /** What the store adds to a request when it accepts it: a fresh id and
      the creation time. */
  datatype Stamp = Stamp(id: string, timeStamp: int)

  /** The asset the store records for an accepted request: the request's
      fields, the store's id and time. */
  function Recorded(req: CreateRequest, st: Stamp): (a: Asset)
    ensures a.id == st.id && a.timeStamp == st.timeStamp
    ensures a.name == req.name && a.imageName == req.imageName
    ensures a.authorId == req.authorId && a.ownerId == req.ownerId
    ensures a.description == req.description && a.quality == req.quality && a.wear == req.wear
    ensures a.category == req.category && a.wearValue == req.wearValue
  {
    Asset(st.id, req.name, req.imageName, req.authorId, req.ownerId, req.description,
          req.quality, req.wear, req.category, req.wearValue, st.timeStamp)
  }
}
