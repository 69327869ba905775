/**
 * The JSON of a Google Books volume search, in the shape both the backend and the discover
 * page read it. Every key may be missing, so every field is optional.
 */
module VolumeJson {
  import opened Wrappers

  datatype ImageLinks = ImageLinks(thumbnail: Option<string>, smallThumbnail: Option<string>)

  /** One entry of `industryIdentifiers`: `type` and `identifier`. */
  datatype IndustryIdentifier = IndustryIdentifier(kind: Option<string>, identifier: Option<string>)

  datatype VolumeInfo = VolumeInfo(
    title: Option<string>,
    authors: Option<seq<string>>,
    description: Option<string>,
    publishedDate: Option<string>,
    publisher: Option<string>,
    imageLinks: Option<ImageLinks>,
    industryIdentifiers: Option<seq<IndustryIdentifier>>,
    averageRating: Option<real>,
    ratingsCount: Option<int>)

  /** `{}`: what `data.get('volumeInfo', {})` falls back to. */
  const EmptyVolume: VolumeInfo := VolumeInfo(None, None, None, None, None, None, None, None, None)

  datatype Item = Item(id: Option<string>, volumeInfo: Option<VolumeInfo>)

  /** The top-level search payload; `error` is the key Google sets on a failed request. */
  datatype SearchPayload = SearchPayload(
    kind: Option<string>, totalItems: Option<int>, items: Option<seq<Item>>, error: Option<string>)
}
