/** Splitting image references into repository and tag, and printing them back. */
module ImageRef {
  import opened Text

  const LATEST := "latest"

  /** parseImageRef: (repository, tag). */
  function Parse(ref: string): (r: (string, string)) {
    var at := FirstChar(ref, '@');
    if at.Some? then (ref[..at.value], "")
    else
      var colon := LastChar(ref, ':');
      if colon.Some? && '/' !in ref[colon.value + 1..] then (ref[..colon.value], ref[colon.value + 1..])
      else (ref, LATEST)
  }

  /** The reference the poller fetches: image:tag, an empty tag standing for latest. */
  function Print(image: string, tag: string): string {
    image + ":" + (if tag == "" then LATEST else tag)
  }

  lemma ParsePrinted(image: string, tag: string)
    requires '@' !in image && tag != ""
    requires '@' !in tag && ':' !in tag && '/' !in tag
    ensures Parse(Print(image, tag)) == (image, tag)
  {
    var ref := Print(image, tag);
    var n := |image|;
    assert '@' !in ref;
    assert ref[n] == ':' && ref[n + 1..] == tag && ref[..n] == image;
    LastCharAt(ref, ':', n);
  }

  /** What is printed: repository, colon, tag, and "latest" for an empty tag. */
  lemma PrintedForm(image: string, tag: string)
    ensures |image| < |Print(image, tag)| && Print(image, tag)[..|image|] == image && Print(image, tag)[|image|] == ':'
    ensures Print(image, tag)[|image| + 1..] == if tag == "" then "latest" else tag
  {
  }

  /** A reference with a digest parses to what stands before its first '@', without a tag; one with a dangling colon to
      what stands before that. */
  lemma ParsedWithoutTag(ref: string)
    requires '@' in ref || EndsWithColon(ref)
    ensures var (image, tag) := Parse(ref);
            tag == "" && image <= ref && |image| < |ref| && '@' !in image
            && ref[|image|] == (if '@' in ref then '@' else ':') && ('@' in ref || |image| == |ref| - 1)
  {
    if '@' !in ref {
      assert ref[|ref| - 1..] == ":" && ref[|ref| - 1 + 1..] == "";
      LastCharAt(ref, ':', |ref| - 1);
    }
  }

  predicate EndsWithColon(ref: string) {
    ref != "" && ref[|ref| - 1] == ':'
  }

  /** Without a digest and without a dangling colon, a parsed reference has a clean nonempty tag, prints as the
      original or the original with ":latest" added, and a registry port stays in the repository. */
  lemma ParsedParts(ref: string)
    requires '@' !in ref && !EndsWithColon(ref)
    ensures var (image, tag) := Parse(ref);
            '@' !in image && tag != "" && '@' !in tag && ':' !in tag && '/' !in tag
            && (Print(image, tag) == ref || (Print(image, tag) == ref + ":latest" && image == ref && tag == LATEST))
  {
    var (image, tag) := Parse(ref);
    var colon := LastChar(ref, ':');
    if colon.Some? && '/' !in ref[colon.value + 1..] {
      assert ref == image + ":" + tag;
    } else {
      assert Print(ref, LATEST) == ref + ":latest";
    }
  }

  /** Printing a parsed reference and parsing it again gives the same pair exactly for references without '@'
      that do not end in ':'. */
  lemma RoundTripIff(ref: string)
    ensures (var (image, tag) := Parse(ref); Parse(Print(image, tag)) == (image, tag))
            <==> '@' !in ref && !EndsWithColon(ref)
  {
    var (image, tag) := Parse(ref);
    if '@' !in ref && !EndsWithColon(ref) {
      ParsedParts(ref);
      ParsePrinted(image, tag);
    } else {
      assert tag == "";
      assert '@' !in image;
      ParsePrinted(image, LATEST);
    }
  }
}
