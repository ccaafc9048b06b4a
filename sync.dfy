/** UploadFile of s3Backup.go: for one local file, decide from the remote
    object's metadata whether it is already in the bucket, hash the file,
    upload it with its digest as metadata, and write back the tag set with a
    fresh modification timestamp.

    Every call to S3 and to the file system becomes an input (Responses);
    a run is the list of the calls that UploadFile actually makes, in
    order, and how it ends. An input whose call is not made is ignored. */
module Sync {

  datatype Option<T> = None | Some(value: T)

  const TimestampKey: string := "modified-timestamp"
  const HashKey: string := "sha256"

  datatype Tag = Tag(key: string, value: string)

  /** HeadObject: the object, a 404 on the wrapped HTTP response, or any
      other error. deleteMarker is true when the DeleteMarker field is
      present at all, whatever its value. */
  datatype HeadResult =
    | HeadFound(size: int, deleteMarker: bool, metadata: map<string, string>)
    | HeadNotFound
    | HeadFailed

  /** GetObjectTagging; its error is discarded by the caller. */
  datatype TagFetch = TagsFetched(tags: seq<Tag>) | TagFetchFailed

  /** GetFileHash: the hex digest (an opaque string) or a failure to open
      or read the file. */
  datatype HashResult = Hashed(digest: string) | HashFailed

  /** The outcome of each external call UploadFile may make. */
  datatype Responses = Responses(
    head: HeadResult,
    tagFetch: TagFetch,
    hash: HashResult,
    openOk: bool,        // os.Open before the upload
    putOk: bool,         // the uploader's Upload
    tagWriteOk: bool)    // PutObjectTagging

  datatype Action =
    | HeadObject
    | GetObjectTagging
    | ComputeHash
    | OpenFile
    | PutObject(metadata: map<string, string>)
    | PutObjectTagging(tags: seq<Tag>)

  datatype Status =
    | ProbeFailed              // HeadObject failed other than with 404
    | AlreadyUpToDate          // timestamp tag matched: nothing else done
    | HashUnavailable
    | OpenFailed
    | UploadFailed
    | Completed(uploaded: bool, tagsWritten: bool)

  datatype Run = Run(actions: seq<Action>, status: Status)

  // ----- Tag lists -----

  /** The value of the first tag with the given key. */
  function FirstValue(tags: seq<Tag>, key: string): Option<string>
  {
    if tags == [] then None
    else if tags[0].key == key then Some(tags[0].value)
    else FirstValue(tags[1..], key)
  }

  /** The number of tags with the given key. */
  function CountKey(tags: seq<Tag>, key: string): nat
  {
    if tags == [] then 0
    else (if tags[|tags| - 1].key == key then 1 else 0) + CountKey(tags[..|tags| - 1], key)
  }

  /** The tags whose key is not the timestamp key, in their order. */
  function WithoutTimestamp(tags: seq<Tag>): seq<Tag>
  {
    if tags == [] then []
    else
      var last := tags[|tags| - 1];
      WithoutTimestamp(tags[..|tags| - 1]) + (if last.key != TimestampKey then [last] else [])
  }

  /** A tag is kept exactly when it was in the list and its key is not the
      timestamp key. */
  lemma {:induction false} WithoutTimestampMembers(tags: seq<Tag>)
    ensures |WithoutTimestamp(tags)| <= |tags|
    ensures forall t :: t in WithoutTimestamp(tags) <==> t in tags && t.key != TimestampKey
  {
    if tags != [] {
      var init := tags[..|tags| - 1];
      WithoutTimestampMembers(init);
      assert tags == init + [tags[|tags| - 1]];
    }
  }

  /** The tag set written back: the old one without timestamp tags,
      followed by one timestamp tag with the local modification time. */
  function RewrittenTags(tags: seq<Tag>, modTime: string): seq<Tag>
  {
    WithoutTimestamp(tags) + [Tag(TimestampKey, modTime)]
  }

  /** The metadata attached to an upload. */
  function UploadMetadata(digest: string): map<string, string>
  {
    map[HashKey := digest]
  }

  // ----- The decision -----

  /** The head found a live object (no DeleteMarker field) of the local size:
      the only case in which tags are fetched and hashes compared. */
  predicate LiveSameSize(head: HeadResult, size: int) {
    head.HeadFound? && !head.deleteMarker && head.size == size
  }

  /** The tags UploadFile holds: those fetched, or none when they were not
      fetched or the fetch failed. */
  function FetchedTags(size: int, r: Responses): seq<Tag> {
    if LiveSameSize(r.head, size) && r.tagFetch.TagsFetched? then r.tagFetch.tags else []
  }

  /** The timestamp short-circuit. */
  predicate TimestampCurrent(size: int, modTime: string, force: bool, r: Responses) {
    !force && LiveSameSize(r.head, size) && r.tagFetch.TagsFetched?
    && FirstValue(r.tagFetch.tags, TimestampKey) == Some(modTime)
  }

  /** Equivalence after hashing: same size and stored "sha256" equal to the
      digest just computed. */
  predicate SameContent(head: HeadResult, size: int, digest: string) {
    LiveSameSize(head, size) && HashKey in head.metadata && head.metadata[HashKey] == digest
  }

  /** The calls made by the probe: the head, and the tag fetch when the
      object is live and of the local size. */
  function Probed(size: int, r: Responses): seq<Action> {
    if LiveSameSize(r.head, size) then [HeadObject] + [GetObjectTagging] else [HeadObject]
  }

  /** The run of UploadFile for a file of the given size and formatted
      modification time. */
  function UploadFileSpec(size: int, modTime: string, force: bool, r: Responses): Run
  {
    if r.head.HeadFailed? then Run([HeadObject], ProbeFailed)
    else if TimestampCurrent(size, modTime, force, r) then Run(Probed(size, r), AlreadyUpToDate)
    else if r.hash.HashFailed? then Run(Probed(size, r) + [ComputeHash], HashUnavailable)
    else
      Transfer(Probed(size, r) + [ComputeHash], SameContent(r.head, size, r.hash.digest),
               UploadMetadata(r.hash.digest), RewrittenTags(FetchedTags(size, r), modTime), r)
  }

  /** What follows the hash: unless the content is the same, open and
      upload; then write the tags. */
  function Transfer(done: seq<Action>, same: bool, metadata: map<string, string>, tags: seq<Tag>,
                    r: Responses): Run
  {
    if same then Run(done + [PutObjectTagging(tags)], Completed(false, r.tagWriteOk))
    else if !r.openOk then Run(done + [OpenFile], OpenFailed)
    else if !r.putOk then Run(done + [OpenFile] + [PutObject(metadata)], UploadFailed)
    else Run(done + [OpenFile] + [PutObject(metadata)] + [PutObjectTagging(tags)], Completed(true, r.tagWriteOk))
  }

  /** The loop over the fetched tags that stops at the first timestamp tag
      and compares its value with the local modification time. */
  method FirstTimestampMatches(tagSet: seq<Tag>, modTime: string) returns (matches: bool)
    ensures matches <==> FirstValue(tagSet, TimestampKey) == Some(modTime)
  {
    matches := false;
    var i := 0;
    while i < |tagSet|
      invariant 0 <= i <= |tagSet|
      invariant !matches
      invariant FirstValue(tagSet, TimestampKey) == FirstValue(tagSet[i..], TimestampKey)
    {
      if tagSet[i].key == TimestampKey {
        matches := matches || tagSet[i].value == modTime;
        break;
      }
      assert tagSet[i..][1..] == tagSet[i + 1..];
      i := i + 1;
    }
  }

  /** The loop that appends every fetched tag other than a timestamp tag. */
  method CopyNonTimestampTags(tagSet: seq<Tag>) returns (tags: seq<Tag>)
    ensures |tags| <= |tagSet|
    ensures forall t :: t in tags <==> t in tagSet && t.key != TimestampKey
    ensures tags == WithoutTimestamp(tagSet)
  {
    tags := [];
    var j := 0;
    while j < |tagSet|
      invariant 0 <= j <= |tagSet|
      invariant tags == WithoutTimestamp(tagSet[..j])
    {
      if tagSet[j].key != TimestampKey {
        tags := tags + [tagSet[j]];
      }
      assert tagSet[..j + 1][..j] == tagSet[..j];
      j := j + 1;
    }
    assert tagSet[..j] == tagSet;
    WithoutTimestampMembers(tagSet);
  }

  /** UploadFile, statement by statement: the exists flag of the source
      (present here), the timestamp search, the hash comparison, the tag
      copy, then open, upload and tag write. */
  method UploadFile(size: int, modTime: string, force: bool, r: Responses) returns (run: Run)
    ensures run == UploadFileSpec(size, modTime, force, r)
  {
    var actions: seq<Action> := [HeadObject];
    var present := false;
    var haveTags := false;
    var tagSet: seq<Tag> := [];

    if r.head.HeadFailed? {
      return Run(actions, ProbeFailed);
    } else if r.head.HeadFound? && !r.head.deleteMarker && size == r.head.size {
      actions := actions + [GetObjectTagging];
      if r.tagFetch.TagsFetched? {
        haveTags := true;
        tagSet := r.tagFetch.tags;
      }
      if !force && haveTags {
        present := FirstTimestampMatches(tagSet, modTime);
      }
    }
    assert actions == Probed(size, r);
    assert present == TimestampCurrent(size, modTime, force, r);
    assert tagSet == FetchedTags(size, r);

    if present {
      return Run(actions, AlreadyUpToDate);
    }

    actions := actions + [ComputeHash];
    if r.hash.HashFailed? {
      return Run(actions, HashUnavailable);
    }
    var hash := r.hash.digest;

    if r.head.HeadFound? && !r.head.deleteMarker && size == r.head.size {
      if HashKey in r.head.metadata {
        present := present || r.head.metadata[HashKey] == hash;
      }
    }

    var metadata := map[HashKey := hash];

    var tags: seq<Tag> := [];
    if haveTags {
      tags := CopyNonTimestampTags(tagSet);
    }
    tags := tags + [Tag(TimestampKey, modTime)];
    assert tags == RewrittenTags(FetchedTags(size, r), modTime);
    assert present == SameContent(r.head, size, hash);
    ghost var done := actions;

    if !present {
      actions := actions + [OpenFile];
      if !r.openOk {
        return Run(actions, OpenFailed);
      }
      actions := actions + [PutObject(metadata)];
      if !r.putOk {
        return Run(actions, UploadFailed);
      }
    }

    actions := actions + [PutObjectTagging(tags)];
    run := Run(actions, Completed(!present, r.tagWriteOk));
    assert run == Transfer(done, present, metadata, tags, r);
  }

  // ----- Properties of the decision -----

  /** A failed probe stops everything; the timestamp short-circuit fires
      exactly when the object is live, of the local size, --force-hash is
      off, and the first timestamp tag holds the local time; it then makes
      no further call. */
  lemma ProbeAndShortCircuit(size: int, modTime: string, force: bool, r: Responses)
    ensures var run := UploadFileSpec(size, modTime, force, r);
      && (run.status == ProbeFailed <==> r.head.HeadFailed?)
      && (r.head.HeadFailed? ==> run.actions == [HeadObject])
      && (run.status == AlreadyUpToDate <==>
            && r.head.HeadFound? && !r.head.deleteMarker && r.head.size == size
            && !force && r.tagFetch.TagsFetched?
            && FirstValue(r.tagFetch.tags, TimestampKey) == Some(modTime))
      && (force ==> run.status != AlreadyUpToDate)
      && (run.status == AlreadyUpToDate ==> run.actions == [HeadObject, GetObjectTagging])
  {
  }

  /** The file is hashed exactly when the probe succeeded and the
      short-circuit did not fire. After hashing, the upload is skipped
      exactly when the object is live, of the local size, and its "sha256"
      metadata equals the digest; so a size mismatch, a missing object or a
      delete marker always leads to an upload attempt. */
  lemma HashingAndEquivalence(size: int, modTime: string, force: bool, r: Responses)
    ensures var run := UploadFileSpec(size, modTime, force, r);
      && (ComputeHash in run.actions <==> run.status !in {ProbeFailed, AlreadyUpToDate})
      && (r.hash.Hashed? && run.status.Completed? && !run.status.uploaded
          <==> run.status != AlreadyUpToDate && !r.head.HeadFailed? && r.hash.Hashed?
               && SameContent(r.head, size, r.hash.digest))
      && (!r.head.HeadFailed? && !LiveSameSize(r.head, size) && r.hash.Hashed? && r.openOk
          ==> PutObject(UploadMetadata(r.hash.digest)) in run.actions)
  {
  }

  /** Each failure ends the run before the calls that follow it: a hash
      failure before any upload, an open or upload failure before the tag
      write. */
  lemma FailureOrdering(size: int, modTime: string, force: bool, r: Responses)
    ensures var run := UploadFileSpec(size, modTime, force, r);
      && (run.status == HashUnavailable ==> r.hash.HashFailed? && run.actions[|run.actions| - 1] == ComputeHash)
      && (run.status in {HashUnavailable, OpenFailed, UploadFailed}
          ==> (forall a :: a in run.actions ==> !a.PutObjectTagging?))
      && (run.status in {ProbeFailed, AlreadyUpToDate, HashUnavailable, OpenFailed}
          ==> (forall a :: a in run.actions ==> !a.PutObject?))
      && (run.status == UploadFailed ==> run.actions[|run.actions| - 1].PutObject?)
  {
  }

  /** The upload carries exactly {"sha256": digest}. */
  lemma UploadCarriesDigest(size: int, modTime: string, force: bool, r: Responses)
    ensures var run := UploadFileSpec(size, modTime, force, r);
      forall a :: a in run.actions && a.PutObject? ==> r.hash.Hashed? && a.metadata == UploadMetadata(r.hash.digest)
  {
  }

  /** The tag write is the last call of every run that completes, and of no
      other; it carries the rewritten tag set and its outcome is reported.
      When tags were never fetched, or the fetch failed, that set is the
      single timestamp tag. */
  lemma TagWriteIsLast(size: int, modTime: string, force: bool, r: Responses)
    ensures var run := UploadFileSpec(size, modTime, force, r);
      && (run.status.Completed? <==> |run.actions| > 0 && run.actions[|run.actions| - 1].PutObjectTagging?)
      && (run.status.Completed?
          ==> run.actions[|run.actions| - 1] == PutObjectTagging(RewrittenTags(FetchedTags(size, r), modTime))
              && run.status.tagsWritten == r.tagWriteOk)
      && (forall i :: 0 <= i < |run.actions| - 1 ==> !run.actions[i].PutObjectTagging?)
      && (!LiveSameSize(r.head, size) || r.tagFetch.TagFetchFailed?
          ==> RewrittenTags(FetchedTags(size, r), modTime) == [Tag(TimestampKey, modTime)])
  {
    var run := UploadFileSpec(size, modTime, force, r);
    if !r.head.HeadFailed? && !TimestampCurrent(size, modTime, force, r) && r.hash.Hashed? {
      var done := Probed(size, r) + [ComputeHash];
      var tags := RewrittenTags(FetchedTags(size, r), modTime);
      assert forall i :: 0 <= i < |done| ==> !done[i].PutObjectTagging?;
      if SameContent(r.head, size, r.hash.digest) {
        assert run.actions == done + [PutObjectTagging(tags)];
      } else if r.openOk && r.putOk {
        var uploading := done + [OpenFile] + [PutObject(UploadMetadata(r.hash.digest))];
        assert forall i :: 0 <= i < |uploading| ==> !uploading[i].PutObjectTagging?;
        assert run.actions == uploading + [PutObjectTagging(tags)];
      }
    }
  }

  // ----- Properties of the tag rewrite -----

  /** Dropping timestamp tags commutes with concatenation, so the order of
      the kept tags is the order they had. */
  lemma {:induction false} WithoutTimestampAppend(a: seq<Tag>, b: seq<Tag>)
    ensures WithoutTimestamp(a + b) == WithoutTimestamp(a) + WithoutTimestamp(b)
    decreases |b|
  {
    if b == [] {
      assert a + b == a;
    } else {
      var b' := b[..|b| - 1];
      var last := b[|b| - 1];
      var tail := if last.key != TimestampKey then [last] else [];
      assert (a + b)[..|a + b| - 1] == a + b';
      assert (a + b)[|a + b| - 1] == last;
      assert WithoutTimestamp(a + b) == WithoutTimestamp(a + b') + tail;
      assert WithoutTimestamp(b) == WithoutTimestamp(b') + tail;
      WithoutTimestampAppend(a, b');
      assert WithoutTimestamp(a + b) == (WithoutTimestamp(a) + WithoutTimestamp(b')) + tail;
    }
  }

  /** The kept tags are exactly the tags that do not carry the timestamp
      key, each kept as often as it occurred. */
  lemma {:induction false} WithoutTimestampCounts(tags: seq<Tag>, key: string)
    ensures CountKey(WithoutTimestamp(tags), key) == if key == TimestampKey then 0 else CountKey(tags, key)
  {
    if tags != [] {
      var init := tags[..|tags| - 1];
      var last := tags[|tags| - 1];
      WithoutTimestampCounts(init, key);
      CountKeyAppend(WithoutTimestamp(init), if last.key != TimestampKey then [last] else [], key);
    }
  }

  lemma {:induction false} CountKeyAppend(a: seq<Tag>, b: seq<Tag>, key: string)
    ensures CountKey(a + b, key) == CountKey(a, key) + CountKey(b, key)
    decreases |b|
  {
    if b == [] {
      assert a + b == a;
    } else {
      var b' := b[..|b| - 1];
      assert (a + b)[..|a + b| - 1] == a + b';
      assert (a + b)[|a + b| - 1] == b[|b| - 1];
      CountKeyAppend(a, b', key);
    }
  }

  /** The rewritten tag set holds exactly one timestamp tag, last, with the
      local modification time; every other tag is kept in order. */
  lemma RewrittenTagsShape(tags: seq<Tag>, modTime: string)
    ensures var r := RewrittenTags(tags, modTime);
      && CountKey(r, TimestampKey) == 1
      && r[|r| - 1] == Tag(TimestampKey, modTime)
      && r[..|r| - 1] == WithoutTimestamp(tags)
      && (forall key :: key != TimestampKey ==> CountKey(r, key) == CountKey(tags, key))
  {
    var r := RewrittenTags(tags, modTime);
    assert r[..|r| - 1] == WithoutTimestamp(tags);
    WithoutTimestampCounts(tags, TimestampKey);
    forall key | key != TimestampKey ensures CountKey(r, key) == CountKey(tags, key) {
      WithoutTimestampCounts(tags, key);
    }
  }

  /** A list without timestamp tags has no first timestamp value before b's. */
  lemma {:induction false} FirstValueSkips(a: seq<Tag>, b: seq<Tag>)
    requires forall t :: t in a ==> t.key != TimestampKey
    ensures FirstValue(a + b, TimestampKey) == FirstValue(b, TimestampKey)
  {
    if a == [] {
      assert a + b == b;
    } else {
      assert (a + b)[0] == a[0];
      assert (a + b)[1..] == a[1..] + b;
      FirstValueSkips(a[1..], b);
    }
  }

  /** The timestamp read back from a rewritten tag set is the one written. */
  lemma RewrittenTimestamp(tags: seq<Tag>, modTime: string)
    ensures FirstValue(RewrittenTags(tags, modTime), TimestampKey) == Some(modTime)
  {
    WithoutTimestampMembers(tags);
    FirstValueSkips(WithoutTimestamp(tags), [Tag(TimestampKey, modTime)]);
  }

  /** Rewriting twice is rewriting once with the later time. */
  lemma RewriteTwice(tags: seq<Tag>, modTime1: string, modTime2: string)
    ensures RewrittenTags(RewrittenTags(tags, modTime1), modTime2) == RewrittenTags(tags, modTime2)
  {
    var kept := WithoutTimestamp(tags);
    var stamp := [Tag(TimestampKey, modTime1)];
    assert stamp[..0] == [];
    assert WithoutTimestamp(stamp) == [];
    WithoutTimestampAppend(kept, stamp);
    WithoutTimestampIdempotent(tags);
    assert WithoutTimestamp(kept + stamp) == kept;
  }

  lemma {:induction false} WithoutTimestampIdempotent(tags: seq<Tag>)
    ensures WithoutTimestamp(WithoutTimestamp(tags)) == WithoutTimestamp(tags)
  {
    if tags != [] {
      var init := tags[..|tags| - 1];
      var last := tags[|tags| - 1];
      var tail := if last.key != TimestampKey then [last] else [];
      WithoutTimestampIdempotent(init);
      WithoutTimestampAppend(WithoutTimestamp(init), tail);
      assert WithoutTimestamp(tail) == tail;
    }
  }

  // ----- Running twice -----

  /** The remote object, as far as UploadFile can see it. */
  datatype StoredObject = StoredObject(size: int, metadata: map<string, string>, tags: seq<Tag>)

  /** S3's answer to HeadObject for a stored object or a missing key. */
  function HeadOf(obj: Option<StoredObject>): HeadResult {
    if obj.None? then HeadNotFound else HeadFound(obj.value.size, false, obj.value.metadata)
  }

  function TagsOf(obj: Option<StoredObject>): TagFetch {
    if obj.None? then TagFetchFailed else TagsFetched(obj.value.tags)
  }

  /** The object after the calls of a run: a successful PutObject replaces
      it (with no tags), a successful PutObjectTagging replaces its tags. */
  function Apply(actions: seq<Action>, size: int, r: Responses, obj: Option<StoredObject>): Option<StoredObject>
  {
    if actions == [] then obj
    else
      var next := match actions[0]
        case PutObject(md) => if r.putOk then Some(StoredObject(size, md, [])) else obj
        case PutObjectTagging(tags) => if r.tagWriteOk && obj.Some? then Some(obj.value.(tags := tags)) else obj
        case _ => obj;
      Apply(actions[1..], size, r, next)
  }

  /** After a run that completed, the object has the local size and the
      digest as its "sha256" metadata, whether the bytes were uploaded or
      only the tags rewritten. When the tag write also succeeded, its tags
      are the rewritten tag set. */
  lemma StoredAfterCompletedRun(size: int, modTime: string, force: bool, r: Responses, prior: Option<StoredObject>)
    requires r.head == HeadOf(prior) && r.hash.Hashed?
    requires UploadFileSpec(size, modTime, force, r).status.Completed?
    ensures var after := Apply(UploadFileSpec(size, modTime, force, r).actions, size, r, prior);
      && after.Some? && after.value.size == size
      && HashKey in after.value.metadata && after.value.metadata[HashKey] == r.hash.digest
      && (UploadFileSpec(size, modTime, force, r).status.tagsWritten
          ==> after.value.tags == RewrittenTags(FetchedTags(size, r), modTime))
  {
    var run := UploadFileSpec(size, modTime, force, r);
    var digest := r.hash.digest;
    var tags := RewrittenTags(FetchedTags(size, r), modTime);
    var hashed := Probed(size, r) + [ComputeHash];
    assert [PutObjectTagging(tags)][1..] == [];
    if run.status.uploaded {
      var before := hashed + [OpenFile];
      var writes := [PutObject(UploadMetadata(digest)), PutObjectTagging(tags)];
      assert run.actions == before + [PutObject(UploadMetadata(digest))] + [PutObjectTagging(tags)];
      assert run.actions == before + writes;
      assert r.putOk;
      var uploaded := Some(StoredObject(size, UploadMetadata(digest), []));
      ApplyNoWrites(before, writes, size, r, prior);
      assert writes[1..] == [PutObjectTagging(tags)];
      assert Apply(writes, size, r, prior) == Apply(writes[1..], size, r, uploaded);
      if r.tagWriteOk {
        assert Apply(writes[1..], size, r, uploaded) == Apply([], size, r, Some(uploaded.value.(tags := tags)));
      } else {
        assert Apply(writes[1..], size, r, uploaded) == Apply([], size, r, uploaded);
      }
    } else {
      assert run.actions == hashed + [PutObjectTagging(tags)];
      assert SameContent(r.head, size, digest);
      assert prior.Some? && prior.value.size == size && prior.value.metadata[HashKey] == digest;
      ApplyNoWrites(hashed, [PutObjectTagging(tags)], size, r, prior);
      if r.tagWriteOk {
        assert Apply([PutObjectTagging(tags)], size, r, prior) == Apply([], size, r, Some(prior.value.(tags := tags)));
      } else {
        assert Apply([PutObjectTagging(tags)], size, r, prior) == Apply([], size, r, prior);
      }
    }
  }

  /** Idempotence: once a run has completed, running again on the unchanged
      file uploads nothing, even when the first run's tag write or the second
      run's tag fetch failed. When that tag write succeeded and the tags are
      fetched, the second run without --force-hash stops at the timestamp,
      and with it only rewrites the tags. */
  lemma SecondRunUploadsNothing(size: int, modTime: string, digest: string, prior: Option<StoredObject>,
                                force1: bool, r1: Responses, force2: bool, r2: Responses)
    requires r1.head == HeadOf(prior) && r1.hash == Hashed(digest)
    requires UploadFileSpec(size, modTime, force1, r1).status.Completed?
    requires var after := Apply(UploadFileSpec(size, modTime, force1, r1).actions, size, r1, prior);
      r2.head == HeadOf(after) && r2.hash == Hashed(digest)
    ensures var run2 := UploadFileSpec(size, modTime, force2, r2);
      forall a :: a in run2.actions ==> !a.PutObject?
    ensures var run2 := UploadFileSpec(size, modTime, force2, r2);
      var after := Apply(UploadFileSpec(size, modTime, force1, r1).actions, size, r1, prior);
      UploadFileSpec(size, modTime, force1, r1).status.tagsWritten && r2.tagFetch == TagsOf(after) ==>
        && (!force2 ==> run2.status == AlreadyUpToDate)
        && (force2 ==> run2.status == Completed(false, r2.tagWriteOk))
  {
    StoredAfterCompletedRun(size, modTime, force1, r1, prior);
    var after := Apply(UploadFileSpec(size, modTime, force1, r1).actions, size, r1, prior);
    RerunOnSameContent(size, modTime, digest, after.value, force2, r2);
    if UploadFileSpec(size, modTime, force1, r1).status.tagsWritten && r2.tagFetch == TagsOf(after) {
      RerunOnSyncedObject(size, modTime, digest, after.value, FetchedTags(size, r1), force2, r2);
    }
  }

  /** A run against an object that holds the local size and the digest
      uploads nothing, whatever its tags: either the timestamp matches, or
      the hash does and only the tags are rewritten. */
  lemma RerunOnSameContent(size: int, modTime: string, digest: string, obj: StoredObject,
                           force: bool, r: Responses)
    requires obj.size == size && HashKey in obj.metadata && obj.metadata[HashKey] == digest
    requires r.head == HeadOf(Some(obj)) && r.hash == Hashed(digest)
    ensures var run := UploadFileSpec(size, modTime, force, r);
      && (forall a :: a in run.actions ==> !a.PutObject?)
      && (run.status == AlreadyUpToDate || run.status == Completed(false, r.tagWriteOk))
  {
    assert LiveSameSize(r.head, size);
    var run := UploadFileSpec(size, modTime, force, r);
    var tags := RewrittenTags(FetchedTags(size, r), modTime);
    if TimestampCurrent(size, modTime, force, r) {
      assert run.actions == [HeadObject, GetObjectTagging];
    } else {
      assert SameContent(r.head, size, digest);
      assert run.actions == [HeadObject, GetObjectTagging] + [ComputeHash, PutObjectTagging(tags)];
    }
  }

  /** A run against an object that holds the local size, the digest and a
      rewritten tag set with the local time stops at the timestamp without
      --force-hash, and with it only rewrites the tags. */
  lemma RerunOnSyncedObject(size: int, modTime: string, digest: string, obj: StoredObject,
                            oldTags: seq<Tag>, force: bool, r: Responses)
    requires obj.size == size && HashKey in obj.metadata && obj.metadata[HashKey] == digest
    requires obj.tags == RewrittenTags(oldTags, modTime)
    requires r.head == HeadOf(Some(obj)) && r.tagFetch == TagsOf(Some(obj)) && r.hash == Hashed(digest)
    ensures var run := UploadFileSpec(size, modTime, force, r);
      && (!force ==> run.status == AlreadyUpToDate)
      && (force ==> run.status == Completed(false, r.tagWriteOk))
  {
    RewrittenTimestamp(oldTags, modTime);
    assert LiveSameSize(r.head, size);
    if force {
      assert !TimestampCurrent(size, modTime, force, r);
      assert SameContent(r.head, size, digest);
    } else {
      assert TimestampCurrent(size, modTime, force, r);
    }
  }

  /** Calls that write nothing leave the object as it was. */
  lemma {:induction false} ApplyNoWrites(a: seq<Action>, b: seq<Action>, size: int, r: Responses, obj: Option<StoredObject>)
    requires forall x :: x in a ==> !x.PutObject? && !x.PutObjectTagging?
    ensures Apply(a + b, size, r, obj) == Apply(b, size, r, obj)
  {
    if a == [] {
      assert a + b == b;
    } else {
      assert (a + b)[0] == a[0];
      assert (a + b)[1..] == a[1..] + b;
      ApplyNoWrites(a[1..], b, size, r, obj);
    }
  }
}
