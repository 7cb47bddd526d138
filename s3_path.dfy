/**
 * The S3 location parser of the ingest tools (src/mastra/tools/audio-ingest.ts:84-96,
 * repeated unchanged at src/mastra/tools/pdf-ingest.ts:244-256). A path with
 * the `s3://` scheme must read `s3://<bucket>/<key>`, with a bucket free of
 * `/` and a key on one line; any other path is a key in the configured
 * default bucket. Either way the bucket and the key must both be non-empty.
 */
module S3Path {
  import opened Wrappers
  import opened Strings

  datatype S3Location = S3Location(bucket: string, key: string)

  datatype S3PathError =
    | InvalidS3Path        // "Invalid S3 path"
    | MissingBucketOrKey   // "Missing S3 bucket or key"

  const Scheme: string := "s3://"

  predicate HasScheme(path: string)
  {
    |path| >= |Scheme| && path[..|Scheme|] == Scheme
  }

  predicate NoSlash(s: string)
  {
    forall k :: 0 <= k < |s| ==> s[k] != '/'
  }

  predicate OnOneLine(s: string)
  {
    forall k :: 0 <= k < |s| ==> !IsLineTerminator(s[k])
  }

  /**
   * `path` matches the pattern as `Scheme + bucket + "/" + key`: the bucket is
   * one or more characters other than `/` (line breaks included), the key one
   * or more characters other than line terminators, running to the end.
   */
  predicate MatchesUrl(path: string, bucket: string, key: string)
  {
    && path == Scheme + bucket + "/" + key
    && bucket != "" && NoSlash(bucket)
    && key != "" && OnOneLine(key)
  }

  /** The first `/` at or after `from`, or `|s|` when there is none. */
  function FirstSlash(s: string, from: nat): (f: nat)
    requires from <= |s|
    ensures from <= f <= |s|
    ensures forall k :: from <= k < f ==> s[k] != '/'
    ensures f < |s| ==> s[f] == '/'
    decreases |s| - from
  {
    if from == |s| || s[from] == '/' then from else FirstSlash(s, from + 1)
  }

  /** The regular-expression match: the bucket runs to the first `/` after the scheme. */
  function MatchS3Url(path: string): Option<S3Location>
    requires HasScheme(path)
  {
    var f := FirstSlash(path, |Scheme|);
    if f == |Scheme| || f == |path| || f + 1 == |path| || !OnOneLine(path[f + 1..]) then None
    else Some(S3Location(path[|Scheme|..f], path[f + 1..]))
  }

  /** The presence check that follows both branches. */
  function RequirePresent(bucket: Option<string>, key: string): (r: Result<S3Location, S3PathError>)
    ensures r.Success? <==> bucket.Some? && bucket.value != "" && key != ""
    ensures r.Success? ==> r.value == S3Location(bucket.value, key)
    ensures r.Failure? ==> r.error == MissingBucketOrKey
  {
    if bucket.None? || bucket.value == "" || key == "" then Failure(MissingBucketOrKey)
    else Success(S3Location(bucket.value, key))
  }

  /**
   * Bucket and key of `path`; `defaultBucket` is the environment's bucket
   * setting, absent when unset.
   */
  function ParseS3Path(path: string, defaultBucket: Option<string>): (r: Result<S3Location, S3PathError>)
    ensures r.Success? ==> r.value.bucket != "" && r.value.key != ""
  {
    if HasScheme(path) then
      match MatchS3Url(path)
      case None => Failure(InvalidS3Path)
      case Some(loc) => RequirePresent(Some(loc.bucket), loc.key)
    else RequirePresent(defaultBucket, path)
  }

  // ---------------------------------------------------------------- the match

  /** What the match extracts is a decomposition of the path. */
  lemma MatchSound(path: string)
    requires HasScheme(path) && MatchS3Url(path).Some?
    ensures MatchesUrl(path, MatchS3Url(path).value.bucket, MatchS3Url(path).value.key)
  {
    var f := FirstSlash(path, |Scheme|);
    assert path == path[..|Scheme|] + path[|Scheme|..f] + "/" + path[f + 1..];
  }

  /** Every decomposition of the path is the one the match extracts. */
  lemma MatchComplete(path: string, bucket: string, key: string)
    requires MatchesUrl(path, bucket, key)
    ensures HasScheme(path) && MatchS3Url(path) == Some(S3Location(bucket, key))
  {
    var n := |Scheme|;
    assert path[..n] == Scheme;
    var f := FirstSlash(path, n);
    forall k | n <= k < n + |bucket| ensures path[k] != '/' {
      assert path[k] == bucket[k - n];
    }
    assert path[n + |bucket|] == '/';
    assert f == n + |bucket|;
    assert path[n..f] == bucket;
    assert path[f + 1..] == key;
  }

  // ---------------------------------------------------------------- the parse

  /** Round trip: a well-formed location written as an `s3://` URL parses back to itself. */
  lemma ParseRoundTrip(bucket: string, key: string, defaultBucket: Option<string>)
    requires bucket != "" && NoSlash(bucket)
    requires key != "" && OnOneLine(key)
    ensures ParseS3Path(Scheme + bucket + "/" + key, defaultBucket) == Success(S3Location(bucket, key))
  {
    MatchComplete(Scheme + bucket + "/" + key, bucket, key);
  }

  /**
   * A path with the scheme parses to a location exactly when it decomposes as
   * that location, and the default bucket plays no part.
   */
  lemma SchemePathParse(path: string, defaultBucket: Option<string>, bucket: string, key: string)
    requires HasScheme(path)
    ensures ParseS3Path(path, defaultBucket) == Success(S3Location(bucket, key)) <==> MatchesUrl(path, bucket, key)
  {
    if MatchesUrl(path, bucket, key) {
      MatchComplete(path, bucket, key);
    }
    if MatchS3Url(path).Some? {
      MatchSound(path);
    }
  }

  /** A path with the scheme either parses or fails as invalid; its presence check cannot fail. */
  lemma SchemePathNeverMissing(path: string, defaultBucket: Option<string>)
    requires HasScheme(path)
    ensures ParseS3Path(path, defaultBucket) != Failure(MissingBucketOrKey)
    ensures ParseS3Path(path, defaultBucket).Failure? <==> MatchS3Url(path).None?
  {
    if MatchS3Url(path).Some? {
      MatchSound(path);
    }
  }

  /** An empty bucket, no `/` after the bucket, an empty key or a key spanning lines is invalid. */
  lemma InvalidExamples(defaultBucket: Option<string>)
    ensures ParseS3Path("s3://bucket", defaultBucket) == Failure(InvalidS3Path)
    ensures ParseS3Path("s3:///key", defaultBucket) == Failure(InvalidS3Path)
    ensures ParseS3Path("s3://bucket/", defaultBucket) == Failure(InvalidS3Path)
    ensures ParseS3Path("s3://bucket/a\nb", defaultBucket) == Failure(InvalidS3Path)
  {
    assert FirstSlash("s3://bucket", 5) == 11;
    assert FirstSlash("s3:///key", 5) == 5;
    assert FirstSlash("s3://bucket/", 5) == 11;
    assert FirstSlash("s3://bucket/a\nb", 5) == 11;
    assert "s3://bucket/a\nb"[12..][1] == '\n';
  }

  /** The key may hold further slashes: only the first one ends the bucket. */
  lemma NestedKeyExample()
    ensures ParseS3Path("s3://media/a/b.mp3", None) == Success(S3Location("media", "a/b.mp3"))
  {
    assert Scheme + "media" + "/" + "a/b.mp3" == "s3://media/a/b.mp3";
    assert NoSlash("media") && OnOneLine("a/b.mp3");
    ParseRoundTrip("media", "a/b.mp3", None);
  }

  /** Any other path is kept whole as the key, in the default bucket. */
  lemma PlainPathUsesDefaultBucket(path: string, bucket: string)
    requires !HasScheme(path) && path != "" && bucket != ""
    ensures ParseS3Path(path, Some(bucket)) == Success(S3Location(bucket, path))
  {
  }

  /** Without a default bucket, with an empty one, or with an empty path the parse fails as missing. */
  lemma PlainPathMissing(path: string, defaultBucket: Option<string>)
    requires !HasScheme(path)
    requires defaultBucket == None || defaultBucket == Some("") || path == ""
    ensures ParseS3Path(path, defaultBucket) == Failure(MissingBucketOrKey)
  {
  }
}
