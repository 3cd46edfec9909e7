/**
 * Feeds and articles as stored, and the small queries defined on them.
 * Identifiers are the textual form of UUIDs; timestamps are seconds.
 */
module FeedModels {
  import opened Wrappers
  import opened Text

  type Id = string

  datatype Feed = Feed(
    id: Id,
    url: string,
    localName: string,
    title: Option<string>,
    description: Option<string>,
    siteUrl: Option<string>,
    iconUrl: Option<string>,
    lastFetchedAt: Option<int>,
    fetchError: Option<string>,
    createdAt: int,
    updatedAt: int,
    unreadCount: nat)

  datatype NewFeed = NewFeed(url: string, localName: string)

  datatype Article = Article(
    id: Id,
    feedId: Id,
    guid: string,
    url: Option<string>,
    title: string,
    author: Option<string>,
    content: Option<string>,
    contentText: Option<string>,
    summary: Option<string>,
    summaryGeneratedAt: Option<int>,
    publishedAt: Option<int>,
    fetchedAt: int,
    isRead: bool,
    readAt: Option<int>,
    isSaved: bool,
    createdAt: int,
    imageUrl: Option<string>,
    relevanceScore: Option<real>,
    tags: seq<string>)

  datatype NewArticle = NewArticle(
    feedId: Id,
    guid: string,
    url: Option<string>,
    title: string,
    author: Option<string>,
    content: Option<string>,
    contentText: Option<string>,
    publishedAt: Option<int>,
    imageUrl: Option<string>)

  predicate IsSummarized(a: Article)
  {
    a.summary.Some?
  }

  predicate HasError(f: Feed)
  {
    f.fetchError.Some?
  }

  /** The text a preview is cut from: the plain-text content, else the summary, else nothing. */
  function PreviewSource(a: Article): (text: string)
    ensures a.contentText.Some? ==> text == a.contentText.value
    ensures a.contentText.None? && a.summary.Some? ==> text == a.summary.value
    ensures a.contentText.None? && a.summary.None? ==> text == ""
  {
    a.contentText.OrElse(a.summary).UnwrapOr("")
  }

  /** Number of leading characters of `text` whose UTF-8 encoding fits in `maxBytes`. */
  function FittingPrefix(text: string, maxBytes: nat): (k: nat)
    ensures k <= |text|
    ensures ByteLen(text[..k]) <= maxBytes
    ensures k < |text| ==> ByteLen(text[..k + 1]) > maxBytes
  {
    FittingPrefixFrom(text, maxBytes, 0)
  }

  function FittingPrefixFrom(text: string, maxBytes: nat, k: nat): (r: nat)
    requires k <= |text| && ByteLen(text[..k]) <= maxBytes
    ensures k <= r <= |text|
    ensures ByteLen(text[..r]) <= maxBytes
    ensures r < |text| ==> ByteLen(text[..r + 1]) > maxBytes
    decreases |text| - k
  {
    if k == |text| then k
    else if ByteLen(text[..k + 1]) > maxBytes then k
    else FittingPrefixFrom(text, maxBytes, k + 1)
  }

  /** Byte length only grows along the prefixes of a string. */
  lemma PrefixByteLenMonotone(text: string, i: nat, j: nat)
    requires i <= j <= |text|
    ensures ByteLen(text[..i]) <= ByteLen(text[..j])
  {
    assert text[..j] == text[..i] + text[i..j];
    ByteLenAppend(text[..i], text[i..j]);
  }

  /** No longer prefix fits: the cut is at the last character boundary within the limit. */
  lemma FittingPrefixLongest(text: string, maxBytes: nat, j: nat)
    requires FittingPrefix(text, maxBytes) < j <= |text|
    ensures ByteLen(text[..j]) > maxBytes
  {
    PrefixByteLenMonotone(text, FittingPrefix(text, maxBytes) + 1, j);
  }

  /** The preview `content_preview(max_len)` promises, as a value. */
  function Preview(text: string, maxLen: nat): string
  {
    if maxLen == 0 then ""
    else if ByteLen(text) <= maxLen then text
    else text[..FittingPrefix(text, maxLen)] + "..."
  }

  /**
   * `Article::content_preview`: walks the characters, advancing `end` while
   * the next character still fits in `maxLen` bytes.
   */
  method ContentPreview(a: Article, maxLen: nat) returns (r: string)
    ensures r == Preview(PreviewSource(a), maxLen)
    ensures maxLen == 0 ==> r == ""
    ensures maxLen > 0 && ByteLen(PreviewSource(a)) <= maxLen ==> r == PreviewSource(a)
    ensures ByteLen(r) <= maxLen + 3
  {
    var text := PreviewSource(a);
    if maxLen == 0 {
      return "";
    }
    if ByteLen(text) <= maxLen {
      return text;
    }
    var k := 0;
    var end := 0;
    while k < |text|
      invariant k <= |text|
      invariant end == ByteLen(text[..k]) <= maxLen
      invariant FittingPrefixFrom(text, maxLen, k) == FittingPrefix(text, maxLen)
      decreases |text| - k
    {
      var next := end + Utf8Len(text[k]);
      assert text[..k + 1][..k] == text[..k];
      if next > maxLen {
        break;
      }
      end := next;
      k := k + 1;
    }
    r := text[..k] + "...";
    ByteLenAppend(text[..k], "...");
  }
}
