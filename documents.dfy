/** What the two catalog schemas share: document ids, the image-URL
    validator both of them declare, and the ways a save can fail. */
module Documents {
  import Strings

  /** A document's `_id`. */
  type Id = nat

  /** Why a `save` or a validated update is rejected: a schema validator
      failed, or the unique index on a name already holds the value
      (MongoDB error code 11000). */
  datatype SaveError = ValidationError | DuplicateKey

  const ImageExtensions: seq<string> := ["jpg", "jpeg", "png", "gif", "webp"]

  predicate StartsWith(s: string, prefix: string) {
    |prefix| <= |s| && s[..|prefix|] == prefix
  }

  predicate EndsWith(s: string, suffix: string) {
    |suffix| <= |s| && s[|s| - |suffix|..] == suffix
  }

  /** What follows the scheme in `/^https?:\/\/.+\.(jpg|jpeg|png|gif|webp)$/i`:
      at least one character that is not a line terminator (`.+`), then a dot
      and one of the extensions at the very end (`$`). */
  predicate PathOk(rest: string) {
    && (forall i :: 0 <= i < |rest| ==> !Strings.IsLineTerminator(rest[i]))
    && exists ext | ext in ImageExtensions :: |rest| >= |ext| + 2 && EndsWith(rest, "." + ext)
  }

  /** The image validator of both schemas, with ASCII case folding for `i`. */
  predicate ImageUrlOk(s: string) {
    var l := Strings.Lower(s);
    if StartsWith(l, "https://") then PathOk(l[8..])
    else if StartsWith(l, "http://") then PathOk(l[7..])
    else false
  }

  /** A missing image (`null` or empty, falsy) is allowed; anything else
      must be an image URL. */
  predicate ImageFieldOk(image: string) {
    image == "" || ImageUrlOk(image)
  }

  /** Letter case does not matter to the validator. */
  lemma ImageUrlIgnoresCase(s: string)
    ensures ImageUrlOk(Strings.Lower(s)) == ImageUrlOk(s)
  {
    Strings.LowerIdempotent(s);
  }

  /** The shortest acceptable URL has twelve characters ("http://a.jpg"). */
  lemma ImageUrlLength(s: string)
    requires ImageUrlOk(s)
    ensures |s| >= 12
  {
    var l := Strings.Lower(s);
    if StartsWith(l, "https://") {
      PathLength(l[8..]);
    } else {
      PathLength(l[7..]);
    }
  }

  lemma PathLength(rest: string)
    requires PathOk(rest)
    ensures |rest| >= 5
  {
    var ext :| ext in ImageExtensions && |rest| >= |ext| + 2 && EndsWith(rest, "." + ext);
    assert |ext| >= 3;
  }
}
