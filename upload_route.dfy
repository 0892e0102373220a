/** Image upload (app/api/upload/route.ts, POST): every file under the form field
    `images` is checked to be an image, stored under a key built from the time and its
    sanitised name, made public, and answered with its public URL. The per-file work,
    which the route runs concurrently, is modelled one file after another; whether each
    storage call completes, and the time each file reads, are given by `FileOutcome`s. */
module UploadRoute {
  import opened Prelude
  import opened Types

  const ImagesField := "images"
  const KeyFolder := "announcements/"
  const PublicHost := "https://storage.googleapis.com/"
  const GsScheme := "gs://"

  datatype FormEntry = FormEntry(field: string, file: FileBlob)

  /** `formData.getAll(field)`: the files sent under `field`, in form order. */
  function FilesUnder(form: seq<FormEntry>, field: string): (files: seq<FileBlob>)
    ensures |files| <= |form|
    ensures (forall i :: 0 <= i < |form| ==> form[i].field != field) ==> files == []
    ensures (forall i :: 0 <= i < |form| ==> form[i].field == field) ==>
              |files| == |form| && forall i :: 0 <= i < |form| ==> files[i] == form[i].file
    ensures forall f :: f in files <==> exists i :: 0 <= i < |form| && form[i].field == field && form[i].file == f
  {
    if form == [] then []
    else
      var rest := FilesUnder(form[1..], field);
      assert forall i :: 1 <= i < |form| ==> form[i] == form[1..][i - 1];
      if form[0].field == field then [form[0].file] + rest else rest
  }

  /** Reading a form made of two parts reads each part, the first part's files first:
      the files come out in form order. */
  lemma {:induction false} FilesUnderAppend(a: seq<FormEntry>, b: seq<FormEntry>, field: string)
    ensures FilesUnder(a + b, field) == FilesUnder(a, field) + FilesUnder(b, field)
  {
    if a == [] {
      assert a + b == b;
    } else {
      assert (a + b)[0] == a[0];
      assert (a + b)[1..] == a[1..] + b;
      FilesUnderAppend(a[1..], b, field);
    }
  }

  /** The characters the file-name sanitiser keeps: `[a-zA-Z0-9.-]`. */
  predicate IsSafeChar(c: char) {
    ('a' <= c <= 'z') || ('A' <= c <= 'Z') || ('0' <= c <= '9') || c == '.' || c == '-'
  }

  /** `name.replace(/[^a-zA-Z0-9.-]/g, "_")` */
  function Sanitize(name: string): (r: string)
    ensures |r| == |name|
    ensures forall i :: 0 <= i < |r| ==> r[i] == if IsSafeChar(name[i]) then name[i] else '_'
  {
    if name == [] then []
    else [if IsSafeChar(name[0]) then name[0] else '_'] + Sanitize(name[1..])
  }

  /** Sanitising twice changes nothing more. */
  lemma SanitizeIdempotent(name: string)
    ensures Sanitize(Sanitize(name)) == Sanitize(name)
  {
  }

  /** A sanitised name holds only safe characters and underscores; in particular no `/`. */
  lemma SanitizedChars(name: string)
    ensures forall c :: c in Sanitize(name) ==> IsSafeChar(c) || c == '_'
    ensures '/' !in Sanitize(name)
  {
  }

  /** The storage key of a file: `announcements/<timestamp>-<sanitised name>`. */
  function StorageKey(now: Millis, name: string): (key: string)
    ensures StartsWith(key, KeyFolder)
    // the timestamp's digits, a dash and one character per character of the name
    ensures |key| == |KeyFolder| + |Decimal(now)| + 1 + |name|
    ensures key[|KeyFolder| + |Decimal(now)|] == '-'
  {
    var key := KeyFolder + (Decimal(now) + "-" + Sanitize(name));
    assert key[..|KeyFolder|] == KeyFolder;
    key
  }

  /** A key reads back as its three parts: the folder, the digits of the timestamp, and
      after the dash the sanitised name. */
  lemma {:induction false} KeyParts(now: Millis, name: string)
    ensures var key, n := StorageKey(now, name), |KeyFolder| + |Decimal(now)|;
      && key[..|KeyFolder|] == KeyFolder
      && key[|KeyFolder|..n] == Decimal(now)
      && key[n] == '-'
      && key[n + 1..] == Sanitize(name)
  {
    var digits := Decimal(now);
    var tail := digits + "-" + Sanitize(name);
    var key := StorageKey(now, name);
    Halves(KeyFolder, tail);
    assert key[|KeyFolder|..|KeyFolder| + |digits|] == tail[..|digits|];
    assert key[|KeyFolder| + |digits| + 1..] == tail[|digits| + 1..];
  }

  /** The two halves of a concatenation. */
  lemma Halves(p: string, q: string)
    ensures (p + q)[..|p|] == p && (p + q)[|p|..] == q
  {
  }

  /** The part of a key after the folder holds no `/`. */
  lemma {:induction false} NoSlashAfterFolder(now: Millis, name: string)
    ensures '/' !in Decimal(now) + "-" + Sanitize(name)
  {
    var digits := Decimal(now);
    assert '/' !in digits by {
      forall k | 0 <= k < |digits| ensures digits[k] != '/' { }
    }
    SanitizedChars(name);
  }

  /** Keys sit directly in the `announcements/` folder and end with the sanitised name. */
  lemma {:induction false} KeyInFolder(now: Millis, name: string)
    ensures var key := StorageKey(now, name);
      && StartsWith(key, KeyFolder)
      && '/' !in key[|KeyFolder|..]
      && key[|key| - |name|..] == Sanitize(name)
  {
    var head := Decimal(now) + "-";
    var tail := head + Sanitize(name);
    var key := StorageKey(now, name);
    Halves(KeyFolder, tail);
    NoSlashAfterFolder(now, name);
    SeqAssoc(KeyFolder, head, Sanitize(name));
    Halves(KeyFolder + head, Sanitize(name));
  }

  /** `bucket.replace(/^gs:\/\//, "")` */
  function StripScheme(bucket: string): (r: string)
    ensures !StartsWith(bucket, GsScheme) ==> r == bucket
    ensures StartsWith(bucket, GsScheme) ==> GsScheme + r == bucket
  {
    if StartsWith(bucket, GsScheme) then bucket[|GsScheme|..] else bucket
  }

  /** The scheme is removed once only: a second `gs://` stays. */
  lemma StripOnce(bucket: string)
    ensures StripScheme(GsScheme + bucket) == bucket
  {
    assert (GsScheme + bucket)[..|GsScheme|] == GsScheme;
    assert (GsScheme + bucket)[|GsScheme|..] == bucket;
  }

  /** The setting may name the bucket with or without the scheme. */
  lemma SchemeOptional(bucket: string)
    requires !StartsWith(bucket, GsScheme)
    ensures StripScheme(GsScheme + bucket) == StripScheme(bucket) == bucket
  {
    StripOnce(bucket);
  }

  /** The public URL of an object. */
  function PublicUrl(bucket: string, key: string): (url: string)
    ensures StartsWith(url, PublicHost)
    ensures url[|PublicHost|..] == bucket + "/" + key
  {
    var url := PublicHost + bucket + "/" + key;
    assert url[..|PublicHost|] == PublicHost;
    assert url[|PublicHost|..] == bucket + "/" + key;
    url
  }

  /** The time a file's key is built with, and whether `save` and `makePublic` complete. */
  datatype FileOutcome = FileOutcome(now: Millis, saved: bool, published: bool)

  /** The work on one file: its public URL, or `None` if the file is not an image, the
      bucket is not configured (absent or empty), or a storage call throws. */
  function UploadOne(f: FileBlob, bucketSetting: Option<string>, e: FileOutcome): (url: Option<string>)
    ensures url.Some? <==> IsImage(f) && Truthy(bucketSetting) && e.saved && e.published
    ensures url.Some? ==> (StartsWith(url.value, PublicHost)
      && url.value[|PublicHost|..] == StripScheme(bucketSetting.value) + "/" + StorageKey(e.now, f.name))
  {
    if !IsImage(f) || !Truthy(bucketSetting) || !e.saved || !e.published then None
    else Some(PublicUrl(StripScheme(bucketSetting.value), StorageKey(e.now, f.name)))
  }

  /** `Promise.all` of the per-file work: every URL in file order, or `None` if any file fails. */
  function UploadAll(files: seq<FileBlob>, bucketSetting: Option<string>, env: seq<FileOutcome>): (r: Option<seq<string>>)
    requires |env| == |files|
    ensures r.Some? <==> forall i :: 0 <= i < |files| ==> UploadOne(files[i], bucketSetting, env[i]).Some?
    ensures r.Some? ==> (|r.value| == |files|
      && forall i :: 0 <= i < |files| ==> r.value[i] == UploadOne(files[i], bucketSetting, env[i]).value)
  {
    if files == [] then Some([])
    else
      match UploadOne(files[0], bucketSetting, env[0])
      case None => None
      case Some(url) =>
        match UploadAll(files[1..], bucketSetting, env[1..])
        case None =>
          assert forall i :: 1 <= i < |files| ==> files[i] == files[1..][i - 1] && env[i] == env[1..][i - 1];
          None
        case Some(urls) => Some([url] + urls)
  }

  datatype UploadResponse = Uploaded(imageUrls: seq<string>) | Rejected(status: nat, error: string)

  const NoFiles := Rejected(400, "No files provided")
  const UploadFailed := Rejected(500, "Failed to upload images")

  /** The response of the POST handler. */
  function Respond(form: seq<FormEntry>, bucketSetting: Option<string>, env: seq<FileOutcome>): (resp: UploadResponse)
    requires |env| == |FilesUnder(form, ImagesField)|
    // 400 exactly when the form holds no `images` file
    ensures resp == NoFiles <==> FilesUnder(form, ImagesField) == []
    // otherwise 500 exactly when some file's work fails, else the URLs of all files
    ensures resp == UploadFailed <==> FilesUnder(form, ImagesField) != [] && UploadAll(FilesUnder(form, ImagesField), bucketSetting, env).None?
    ensures resp.Uploaded? ==> resp.imageUrls == UploadAll(FilesUnder(form, ImagesField), bucketSetting, env).value
  {
    var files := FilesUnder(form, ImagesField);
    if files == [] then NoFiles
    else
      match UploadAll(files, bucketSetting, env)
      case None => UploadFailed
      case Some(urls) => Uploaded(urls)
  }

  /** A form with no `images` entry is refused with 400. */
  lemma NoImagesRefused(form: seq<FormEntry>, bucketSetting: Option<string>)
    requires forall i :: 0 <= i < |form| ==> form[i].field != ImagesField
    ensures Respond(form, bucketSetting, []) == NoFiles
  {
  }

  /** On success there is exactly one URL per file, in file order, each the public URL of
      the file's key in the configured bucket. */
  lemma UploadedInOrder(form: seq<FormEntry>, bucketSetting: Option<string>, env: seq<FileOutcome>)
    requires |env| == |FilesUnder(form, ImagesField)|
    requires Respond(form, bucketSetting, env).Uploaded?
    ensures var files := FilesUnder(form, ImagesField);
      var urls := Respond(form, bucketSetting, env).imageUrls;
      && Truthy(bucketSetting)
      && |urls| == |files| > 0
      && forall i :: 0 <= i < |files| ==>
           urls[i] == PublicUrl(StripScheme(bucketSetting.value), StorageKey(env[i].now, files[i].name))
  {
    var files := FilesUnder(form, ImagesField);
    assert UploadOne(files[0], bucketSetting, env[0]).Some?;
  }

  /** A non-image file, a missing bucket setting or a failed storage call for any one
      file fails the whole request with 500. */
  lemma AnyFailureFailsAll(form: seq<FormEntry>, bucketSetting: Option<string>, env: seq<FileOutcome>, i: nat)
    requires |env| == |FilesUnder(form, ImagesField)|
    requires i < |env|
    requires var f := FilesUnder(form, ImagesField)[i];
      !IsImage(f) || !Truthy(bucketSetting) || !env[i].saved || !env[i].published
    ensures Respond(form, bucketSetting, env) == UploadFailed
  {
    var files := FilesUnder(form, ImagesField);
    assert UploadOne(files[i], bucketSetting, env[i]).None?;
  }

  /** A stored object: its content type and bytes. */
  datatype StoredObject = StoredObject(contentType: string, bytes: seq<bv8>)

  /** An object's place: its bucket and its key. */
  datatype Location = Location(bucket: string, key: string)

  /** Where a file goes in the configured bucket. */
  function FileLocation(f: FileBlob, bucket: string, e: FileOutcome): Location {
    Location(StripScheme(bucket), StorageKey(e.now, f.name))
  }

  /** The store after the work on one file: `save` writes the object, `makePublic`
      publishes it; a file that is refused before `save` writes nothing. */
  function Step(objects: map<Location, StoredObject>, published: set<Location>,
                f: FileBlob, bucketSetting: Option<string>, e: FileOutcome)
    : (r: (map<Location, StoredObject>, set<Location>))
    ensures objects.Keys <= r.0.Keys && published <= r.1
    // a file refused before `save` changes nothing
    ensures !IsImage(f) || !Truthy(bucketSetting) || !e.saved ==> r == (objects, published)
    // only the file's own location can change
    ensures Truthy(bucketSetting) ==>
      && (forall l :: l in r.0 && l != FileLocation(f, bucketSetting.value, e) ==> l in objects && r.0[l] == objects[l])
      && (forall l :: l in r.1 && l != FileLocation(f, bucketSetting.value, e) ==> l in published)
    ensures UploadOne(f, bucketSetting, e).Some? ==>
      var loc := FileLocation(f, bucketSetting.value, e);
      loc in r.0 && loc in r.1 && r.0[loc] == StoredObject(f.mimeType, f.bytes)
  {
    if !IsImage(f) || !Truthy(bucketSetting) || !e.saved then (objects, published)
    else
      var loc := FileLocation(f, bucketSetting.value, e);
      var objects' := objects[loc := StoredObject(f.mimeType, f.bytes)];
      if e.published then (objects', published + {loc}) else (objects', published)
  }

  /** The store after processing `files` one after another, stopping after the first
      file that fails. */
  function Effects(objects: map<Location, StoredObject>, published: set<Location>,
                   files: seq<FileBlob>, bucketSetting: Option<string>, env: seq<FileOutcome>)
    : (r: (map<Location, StoredObject>, set<Location>))
    requires |env| == |files|
    decreases |files|
    ensures objects.Keys <= r.0.Keys && published <= r.1
  {
    if files == [] then (objects, published)
    else
      var (objects', published') := Step(objects, published, files[0], bucketSetting, env[0]);
      if UploadOne(files[0], bucketSetting, env[0]).None? then (objects', published')
      else Effects(objects', published', files[1..], bucketSetting, env[1..])
  }

  /** A location no file of the run goes to keeps its stored object. */
  lemma {:induction false} EffectsFrame(objects: map<Location, StoredObject>, published: set<Location>,
                                        files: seq<FileBlob>, bucketSetting: Option<string>, env: seq<FileOutcome>, l: Location)
    requires |env| == |files| && Truthy(bucketSetting)
    requires forall j :: 0 <= j < |files| ==> FileLocation(files[j], bucketSetting.value, env[j]) != l
    requires l in objects
    ensures var r := Effects(objects, published, files, bucketSetting, env);
      l in r.0 && r.0[l] == objects[l]
    decreases |files|
  {
    if files != [] {
      var s := Step(objects, published, files[0], bucketSetting, env[0]);
      if UploadOne(files[0], bucketSetting, env[0]).Some? {
        assert forall j :: 0 <= j < |files| - 1 ==> files[1..][j] == files[j + 1] && env[1..][j] == env[j + 1];
        EffectsFrame(s.0, s.1, files[1..], bucketSetting, env[1..], l);
      }
    }
  }

  /** The work on one file succeeds: it is an image, the bucket is configured, and both
      storage calls complete. */
  predicate FileSucceeds(f: FileBlob, bucketSetting: Option<string>, e: FileOutcome) {
    IsImage(f) && Truthy(bucketSetting) && e.saved && e.published
  }

  /** A run whose first file succeeds stores and publishes that file's location; the
      content stays the first file's unless a later file goes to the same location. */
  lemma {:induction false} EffectsStoredFirst(objects: map<Location, StoredObject>, published: set<Location>,
                                              files: seq<FileBlob>, bucketSetting: Option<string>, env: seq<FileOutcome>)
    requires |env| == |files| && files != []
    requires FileSucceeds(files[0], bucketSetting, env[0])
    ensures var r := Effects(objects, published, files, bucketSetting, env);
      var loc := FileLocation(files[0], bucketSetting.value, env[0]);
      && loc in r.0 && loc in r.1
      && ((forall j :: 0 < j < |files| ==> FileLocation(files[j], bucketSetting.value, env[j]) != loc)
          ==> r.0[loc] == StoredObject(files[0].mimeType, files[0].bytes))
  {
    var s := Step(objects, published, files[0], bucketSetting, env[0]);
    var rest, restEnv := files[1..], env[1..];
    var loc := FileLocation(files[0], bucketSetting.value, env[0]);
    assert Effects(objects, published, files, bucketSetting, env) == Effects(s.0, s.1, rest, bucketSetting, restEnv);
    if forall j :: 0 < j < |files| ==> FileLocation(files[j], bucketSetting.value, env[j]) != loc {
      assert forall j :: 0 <= j < |rest| ==> rest[j] == files[j + 1] && restEnv[j] == env[j + 1];
      EffectsFrame(s.0, s.1, rest, bucketSetting, restEnv, loc);
    }
  }

  /** `EffectsStored` for a run in which every file's work succeeds, by induction on the run. */
  lemma {:induction false} EffectsStoredAt(objects: map<Location, StoredObject>, published: set<Location>,
                                           files: seq<FileBlob>, bucketSetting: Option<string>, env: seq<FileOutcome>, i: nat)
    requires |env| == |files| && i < |files|
    requires Truthy(bucketSetting)
    requires forall j :: 0 <= j < |files| ==> FileSucceeds(files[j], bucketSetting, env[j])
    ensures var r := Effects(objects, published, files, bucketSetting, env);
      var loc := FileLocation(files[i], bucketSetting.value, env[i]);
      && loc in r.0 && loc in r.1
      && ((forall j :: i < j < |files| ==> FileLocation(files[j], bucketSetting.value, env[j]) != loc)
          ==> r.0[loc] == StoredObject(files[i].mimeType, files[i].bytes))
    decreases |files|
  {
    assert FileSucceeds(files[0], bucketSetting, env[0]);
    if i == 0 {
      EffectsStoredFirst(objects, published, files, bucketSetting, env);
    } else {
      var s := Step(objects, published, files[0], bucketSetting, env[0]);
      var rest, restEnv := files[1..], env[1..];
      assert forall j :: 0 <= j < |rest| ==> rest[j] == files[j + 1] && restEnv[j] == env[j + 1];
      assert Effects(objects, published, files, bucketSetting, env) == Effects(s.0, s.1, rest, bucketSetting, restEnv);
      EffectsStoredAt(s.0, s.1, rest, bucketSetting, restEnv, i - 1);
    }
  }

  /** After a successful run every file's location is stored and published; it holds
      that file's content unless a later file of the run went to the same location
      (two files with one sanitised name read the same time: the later save overwrites). */
  lemma EffectsStored(objects: map<Location, StoredObject>, published: set<Location>,
                      files: seq<FileBlob>, bucketSetting: Option<string>, env: seq<FileOutcome>, i: nat)
    requires |env| == |files| && i < |files|
    requires UploadAll(files, bucketSetting, env).Some?
    ensures Truthy(bucketSetting)
    ensures var r := Effects(objects, published, files, bucketSetting, env);
      var loc := FileLocation(files[i], bucketSetting.value, env[i]);
      && loc in r.0 && loc in r.1
      && ((forall j :: i < j < |files| ==> FileLocation(files[j], bucketSetting.value, env[j]) != loc)
          ==> r.0[loc] == StoredObject(files[i].mimeType, files[i].bytes))
  {
    assert forall j :: 0 <= j < |files| ==> FileSucceeds(files[j], bucketSetting, env[j]) by {
      forall j | 0 <= j < |files| ensures FileSucceeds(files[j], bucketSetting, env[j]) {
        assert UploadOne(files[j], bucketSetting, env[j]).Some?;
      }
    }
    assert FileSucceeds(files[i], bucketSetting, env[i]);
    EffectsStoredAt(objects, published, files, bucketSetting, env, i);
  }

  /** `Effects` on the files from `i` on, one step unfolded. */
  lemma EffectsAt(objects: map<Location, StoredObject>, published: set<Location>,
                  files: seq<FileBlob>, bucketSetting: Option<string>, env: seq<FileOutcome>, i: nat)
    requires |env| == |files| && i < |files|
    ensures var s := Step(objects, published, files[i], bucketSetting, env[i]);
      Effects(objects, published, files[i..], bucketSetting, env[i..])
      == if UploadOne(files[i], bucketSetting, env[i]).None? then s
         else Effects(s.0, s.1, files[i + 1..], bucketSetting, env[i + 1..])
  {
    var rest, restEnv := files[i..], env[i..];
    assert rest[0] == files[i] && restEnv[0] == env[i];
    assert rest[1..] == files[i + 1..] && restEnv[1..] == env[i + 1..];
  }

  /** One file that yields no URL fails the whole upload. */
  lemma OneFails(files: seq<FileBlob>, bucketSetting: Option<string>, env: seq<FileOutcome>, i: nat)
    requires |env| == |files| && i < |files|
    requires UploadOne(files[i], bucketSetting, env[i]).None?
    ensures UploadAll(files, bucketSetting, env).None?
  {
  }

  /** When every file yields its URL, `UploadAll` answers exactly those URLs. */
  lemma AllUploaded(files: seq<FileBlob>, bucketSetting: Option<string>, env: seq<FileOutcome>, urls: seq<string>)
    requires |env| == |files| == |urls|
    requires forall k :: 0 <= k < |files| ==> UploadOne(files[k], bucketSetting, env[k]) == Some(urls[k])
    ensures UploadAll(files, bucketSetting, env) == Some(urls)
  {
    var all := UploadAll(files, bucketSetting, env);
    assert all.Some?;
    assert forall k :: 0 <= k < |urls| ==> all.value[k] == urls[k];
    assert all.value == urls;
  }

  /** The object store the route writes to. */
  class ObjectStore {
    var objects: map<Location, StoredObject>
    var published: set<Location>

    constructor ()
      ensures objects == map[] && published == {}
    {
      objects := map[];
      published := {};
    }

    /** The work on one file (the body of the route's per-file callback). */
    method UploadFile(f: FileBlob, bucketSetting: Option<string>, e: FileOutcome) returns (url: Option<string>)
      modifies this
      ensures url == UploadOne(f, bucketSetting, e)
      ensures (objects, published) == Step(old(objects), old(published), f, bucketSetting, e)
    {
      if !IsImage(f) {
        return None;
      }
      var key := StorageKey(e.now, f.name);
      if !Truthy(bucketSetting) {
        return None;
      }
      var bucketName := StripScheme(bucketSetting.value);
      var loc := Location(bucketName, key);
      if !e.saved {
        return None;
      }
      objects := objects[loc := StoredObject(f.mimeType, f.bytes)];
      if !e.published {
        return None;
      }
      published := published + {loc};
      url := Some(PublicUrl(bucketName, key));
    }

    /** The POST handler: a form without `images` files is refused; otherwise the files
        are processed one after another. */
    method Post(form: seq<FormEntry>, bucketSetting: Option<string>, env: seq<FileOutcome>)
      returns (resp: UploadResponse)
      requires |env| == |FilesUnder(form, ImagesField)|
      modifies this
      ensures resp == Respond(form, bucketSetting, env)
      ensures var files := FilesUnder(form, ImagesField);
        (objects, published) == Effects(old(objects), old(published), files, bucketSetting, env)
    {
      var files := FilesUnder(form, ImagesField);
      if files == [] {
        return NoFiles;
      }
      var urls := UploadEach(files, bucketSetting, env);
      resp := if urls.None? then UploadFailed else Uploaded(urls.value);
    }

    /** The per-file work, one file after another, stopping at the first file that fails. */
    method UploadEach(files: seq<FileBlob>, bucketSetting: Option<string>, env: seq<FileOutcome>)
      returns (r: Option<seq<string>>)
      requires |env| == |files|
      modifies this
      ensures r == UploadAll(files, bucketSetting, env)
      ensures (objects, published) == Effects(old(objects), old(published), files, bucketSetting, env)
    {
      var urls: seq<string> := [];
      var i := 0;
      while i < |files|
        invariant 0 <= i <= |files|
        invariant |urls| == i
        invariant forall k :: 0 <= k < i ==> UploadOne(files[k], bucketSetting, env[k]) == Some(urls[k])
        invariant Effects(old(objects), old(published), files, bucketSetting, env)
               == Effects(objects, published, files[i..], bucketSetting, env[i..])
      {
        EffectsAt(objects, published, files, bucketSetting, env, i);
        var url := UploadFile(files[i], bucketSetting, env[i]);
        if url.None? {
          OneFails(files, bucketSetting, env, i);
          return None;
        }
        urls := urls + [url.value];
        i := i + 1;
      }
      assert files[i..] == [];
      AllUploaded(files, bucketSetting, env, urls);
      r := Some(urls);
    }
  }
}
