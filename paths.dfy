/** Resolution of the command line's (source, destination URL) pair into the
    bucket, the base key and the local path that the walk starts from, as
    SanitizePaths in s3Backup.go does before anything is uploaded.

    The outcomes of os.Stat on the source and of url.Parse on the destination
    are inputs; os.Exit becomes an Err result. */
module Paths {

  datatype Result<T, E> = Ok(value: T) | Err(error: E)

  /** What os.Stat said about the source. Only a "does not exist" error stops
      the run; any other stat error is let through. */
  datatype SourceStat = SourcePresent | SourceMissing | SourceStatError

  /** What url.Parse returned for the destination: its host and its path. */
  datatype ParsedUrl = Parsed(host: string, path: string) | ParseFailed

  datatype PathError =
    | NotS3Destination        // the destination lacks the "s3://" prefix
    | SourceNotFound          // the source does not exist
    | UnparsableDestination   // url.Parse failed, or the host is empty
    | DirectoryOntoKey        // contents of a directory onto a single key

  /** Bucket, key (possibly with a leading '/') and local source path. */
  datatype Target = Target(bucket: string, key: string, source: string)

  const Scheme: string := "s3://"

  predicate HasPrefix(s: string, prefix: string) {
    |prefix| <= |s| && s[..|prefix|] == prefix
  }

  predicate EndsWithSlash(s: string) {
    |s| > 0 && s[|s| - 1] == '/'
  }

  /** Index of the last '/' in s, or -1 when there is none. */
  function LastSlash(s: string): (r: int)
    ensures -1 <= r < |s|
    ensures r >= 0 ==> s[r] == '/'
    ensures forall j :: r < j < |s| ==> s[j] != '/'
  {
    if s == [] then -1
    else if s[|s| - 1] == '/' then |s| - 1
    else LastSlash(s[..|s| - 1])
  }

  /** s without all of its trailing '/' characters. */
  function TrimTrailingSlashes(s: string): (r: string)
    ensures |r| <= |s| && r == s[..|r|]
    ensures !EndsWithSlash(r)
    ensures forall j :: |r| <= j < |s| ==> s[j] == '/'
  {
    if EndsWithSlash(s) then TrimTrailingSlashes(s[..|s| - 1]) else s
  }

  /** Go's path.Base: "." for the empty path, "/" for a path of slashes only,
      otherwise the last element after trailing slashes are removed. */
  function Base(p: string): (r: string)
    ensures r != ""
  {
    if p == "" then "."
    else
      var t := TrimTrailingSlashes(p);
      if t == "" then "/" else t[LastSlash(t) + 1..]
  }

  /** For a non-empty path that does not end in '/', Base is its last
      element: it holds no '/', and the path is a directory part that is
      empty or ends in '/', followed by that element. */
  lemma BaseOfFilePath(p: string)
    requires p != "" && !EndsWithSlash(p)
    ensures var b := Base(p);
      && 0 < |b| <= |p|
      && '/' !in b
      && p == p[..|p| - |b|] + b
      && (|b| == |p| || EndsWithSlash(p[..|p| - |b|]))
  {
    var k := LastSlash(p);
    assert TrimTrailingSlashes(p) == p;
    var b := p[k + 1..];
    assert Base(p) == b;
    assert p == p[..k + 1] + b;
    assert forall i :: 0 <= i < |b| ==> b[i] == p[k + 1 + i];
    assert '/' !in b;
  }

  /** SanitizePaths: the checks run in the source's order (scheme prefix,
      existence of the source, parse, non-empty host), then the four-way rule
      on trailing slashes of the destination path and of the source. */
  function SanitizePaths(source: string, destination: string, stat: SourceStat, url: ParsedUrl)
    : (r: Result<Target, PathError>)
    ensures r.Ok? <==>
      && HasPrefix(destination, Scheme)
      && stat != SourceMissing
      && url.Parsed? && url.host != ""
      && (EndsWithSlash(source) ==> EndsWithSlash(url.path))
    ensures !HasPrefix(destination, Scheme) ==> r == Err(NotS3Destination)
    ensures HasPrefix(destination, Scheme) && stat == SourceMissing ==> r == Err(SourceNotFound)
    ensures HasPrefix(destination, Scheme) && stat != SourceMissing && (url.ParseFailed? || url.host == "")
      ==> r == Err(UnparsableDestination)
    ensures r.Ok? ==> r.value.bucket == url.host
  {
    if !HasPrefix(destination, Scheme) then Err(NotS3Destination)
    else if stat == SourceMissing then Err(SourceNotFound)
    else if url.ParseFailed? || |url.host| <= 0 then Err(UnparsableDestination)
    else
      var key := url.path;
      if EndsWithSlash(key) then
        if EndsWithSlash(source) then
          Ok(Target(url.host, key[..|key| - 1], source[..|source| - 1]))
        else
          Ok(Target(url.host, key + Base(source), source))
      else if EndsWithSlash(source) then
        Err(DirectoryOntoKey)
      else
        Ok(Target(url.host, key, source))
  }

  /** True when the destination passes every check before the slash rule. */
  predicate Accepted(destination: string, stat: SourceStat, url: ParsedUrl) {
    HasPrefix(destination, Scheme) && stat != SourceMissing && url.Parsed? && url.host != ""
  }

  /** Destination path ends in '/' and the source does not: the target is the
      source's own name inside that prefix, and the source is unchanged. */
  lemma IntoPrefixAppendsBaseName(source: string, destination: string, stat: SourceStat, url: ParsedUrl)
    requires Accepted(destination, stat, url)
    requires EndsWithSlash(url.path) && !EndsWithSlash(source) && source != ""
    ensures var r := SanitizePaths(source, destination, stat, url);
      && r.Ok?
      && r.value.source == source
      && exists name :: name != "" && '/' !in name && r.value.key == url.path + name
                        && HasSuffixElement(source, name)
  {
    BaseOfFilePath(source);
    var name := Base(source);
    assert HasSuffixElement(source, name);
  }

  /** name is the last '/'-separated element of p. */
  predicate HasSuffixElement(p: string, name: string) {
    |name| <= |p| && p[|p| - |name|..] == name
    && (|name| == |p| || p[|p| - |name| - 1] == '/')
  }

  /** Both end in '/': exactly one trailing character is dropped from each. */
  lemma ContentsIntoPrefixStripsBoth(source: string, destination: string, stat: SourceStat, url: ParsedUrl)
    requires Accepted(destination, stat, url)
    requires EndsWithSlash(url.path) && EndsWithSlash(source)
    ensures var r := SanitizePaths(source, destination, stat, url);
      && r.Ok?
      && r.value.key + "/" == url.path
      && r.value.source + "/" == source
  {
  }

  /** Neither ends in '/': the URL path is the key, verbatim. */
  lemma ExactKeyVerbatim(source: string, destination: string, stat: SourceStat, url: ParsedUrl)
    requires Accepted(destination, stat, url)
    requires !EndsWithSlash(url.path) && !EndsWithSlash(source)
    ensures SanitizePaths(source, destination, stat, url) == Ok(Target(url.host, url.path, source))
  {
  }

  /** The contents of a directory cannot be put onto one key. */
  lemma DirectoryOntoKeyRejected(source: string, destination: string, stat: SourceStat, url: ParsedUrl)
    requires Accepted(destination, stat, url)
    requires !EndsWithSlash(url.path) && EndsWithSlash(source)
    ensures SanitizePaths(source, destination, stat, url) == Err(DirectoryOntoKey)
  {
  }
}
