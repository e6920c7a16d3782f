/**
 * The object locator codec shared by the splitter, the mapper and the reducer
 * (`parseS3URL` and `s3URL`, written out identically in all three services):
 * `s3://bucket/key`, split on the first `/` after the scheme.
 */
module Locator {
  import opened Wrappers
  import opened Strings

  const Scheme: string := "s3://"

  /** The address of one object in the store. */
  datatype Ref = Ref(bucket: string, key: string)

  datatype LocatorError = MissingScheme | Malformed
  {
    /** The text of the Go error value. */
    function Message(): string
    {
      match this
      case MissingScheme => "must start with s3://"
      case Malformed => "invalid s3 url, expected s3://bucket/key"
    }
  }

  /** What a successful parse can produce: a bucket without `/`, both parts non-empty. */
  predicate WellFormed(r: Ref)
  {
    r.bucket != "" && '/' !in r.bucket && r.key != ""
  }

  /** `s3URL(bucket, key)`. */
  function Format(r: Ref): string
  {
    Scheme + r.bucket + "/" + r.key
  }

  /** `parseS3URL(s)`. */
  function Parse(s: string): (r: Result<Ref, LocatorError>)
    ensures r == Err(MissingScheme) <==> !(Scheme <= s)
    ensures r.Ok? ==> WellFormed(r.value) && Format(r.value) == s
  {
    if !(Scheme <= s) then Err(MissingScheme)
    else
      var rest := s[|Scheme|..];
      match IndexOf(rest, '/')
      case None => Err(Malformed)
      case Some(i) =>
        if i == 0 || i + 1 == |rest| then Err(Malformed)
        else
          FormatAtSlash(rest, i);
          assert s == Scheme + rest;
          Ok(Ref(rest[..i], rest[i + 1..]))
  }

  /** Cutting the text after the scheme at a `/` and formatting the two parts gives the text back. */
  lemma FormatAtSlash(rest: string, i: nat)
    requires i < |rest| && rest[i] == '/'
    ensures Format(Ref(rest[..i], rest[i + 1..])) == Scheme + rest
  {
    assert rest == rest[..i] + "/" + rest[i + 1..];
  }

  /** Formatting a well-formed reference and parsing it back gives the same reference. */
  lemma ParseFormat(r: Ref)
    requires WellFormed(r)
    ensures Parse(Format(r)) == Ok(r)
  {
    var s := Format(r);
    assert s[..|Scheme|] == Scheme;
    var rest := s[|Scheme|..];
    assert rest == r.bucket + "/" + r.key;
    IndexOfAfterPrefix(r.bucket, '/', r.key);
    assert rest[..|r.bucket|] == r.bucket;
    assert rest[|r.bucket| + 1..] == r.key;
  }

  /**
   * Parsing succeeds exactly on the texts `"s3://" + b + "/" + k` with `b`
   * non-empty and free of `/` and `k` non-empty (`k` may hold `/`).
   */
  lemma ParseSucceedsIff(s: string)
    ensures Parse(s).Ok? <==> exists r :: WellFormed(r) && Format(r) == s
  {
    if exists r :: WellFormed(r) && Format(r) == s {
      var r :| WellFormed(r) && Format(r) == s;
      ParseFormat(r);
    }
  }

  /** Different well-formed references have different texts. */
  lemma FormatInjective(r1: Ref, r2: Ref)
    requires WellFormed(r1) && WellFormed(r2)
    requires Format(r1) == Format(r2)
    ensures r1 == r2
  {
    ParseFormat(r1);
    ParseFormat(r2);
  }
}
