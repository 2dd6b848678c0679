/**
 * What the post and avatar handlers derive from an uploaded file: its public URL
 * and, for posts, whether it is a video or an image.
 */
module Media {
  import opened Types

  /** The upload as the multipart middleware reports it: the stored file name and the client's mimetype. */
  datatype Upload = Upload(filename: string, mimetype: Option<string>)

  /** JavaScript's `s.startsWith(prefix)`. */
  predicate StartsWith(s: string, prefix: string)
  {
    |prefix| <= |s| && s[..|prefix|] == prefix
  }

  /** `'video'` when the mimetype (missing counts as empty) starts with `video`, `'image'` otherwise. */
  function MediaTypeOf(mimetype: Option<string>): (r: MediaType)
    ensures r == Video <==> mimetype.Some? && |mimetype.value| >= 5 && mimetype.value[..5] == "video"
    ensures mimetype.None? ==> r == Image
  {
    if StartsWith(OrEmpty(mimetype), "video") then Video else Image
  }

  /** The public path of a stored upload. */
  function MediaUrl(filename: string): (r: string)
    ensures |r| == |filename| + 9 && r[9..] == filename
    ensures StartsWith(r, "/uploads/")
  {
    "/uploads/" + filename
  }
}
