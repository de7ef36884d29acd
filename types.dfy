/** The article record (src/lib/types.ts) and the video metadata merged into it. */
module Types {
  import opened Wrappers

  /** What the enrichment step found out about a video; every field may be missing. */
  datatype YoutubeMeta = YoutubeMeta(
    ytTitle: Option<string>,
    ytChannel: Option<string>,
    ytChannelUrl: Option<string>,
    ytViews: Option<int>,
    ytPublished: Option<string>)

  /** The metadata of a document without a video: all fields missing. */
  const NoMeta: YoutubeMeta := YoutubeMeta(None, None, None, None, None)

  datatype Podcast = Podcast(
    id: string,
    title: string,
    rawTitle: string,
    dateCode: string,
    youtubeId: Option<string>,
    feishuUrl: string,
    intro: seq<string>,
    highlights: seq<string>,
    fullText: string,
    ytTitle: Option<string>,
    ytChannel: Option<string>,
    ytChannelUrl: Option<string>,
    ytViews: Option<int>,
    ytPublished: Option<string>)
}
