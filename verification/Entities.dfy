/** The documents of the metadata index. */
module Entities {
  import opened GoText

  /** A UUID, as the number its sixteen bytes spell; that order is also the order of its text. */
  type Id = nat

  datatype MetadataType = Image | Video

  datatype Texts = Texts(onScreenText: string, audioTranscript: string, audioTrack: string, caption: string)

  datatype Sizes = Sizes(width: int, height: int)

  datatype EmbeddingItem = EmbeddingItem(data: seq<real>)

  datatype SliceTexts = SliceTexts(number: int, startTime: int, endTime: int, texts: Texts)

  datatype Doc = Doc(
    imageId: Id,
    s3Id: Id,
    accountId: Id,
    hash: string,
    result: string,
    thumbSize: Option<Sizes>,
    imageSize: Option<Sizes>,
    created: int,
    updated: int,
    embeddings: seq<EmbeddingItem>,
    kind: MetadataType,
    resultData: Option<Texts>,
    resultPerSlice: seq<SliceTexts>,
    edited: bool)
}
