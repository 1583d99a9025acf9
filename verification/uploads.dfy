/** The multer configuration of the submit route: the extension filter, the
    size and count limits, and the stored-name rule. */
module Uploads {
  import opened Options
  import opened JsText
  import opened NodePath
  import opened Collaborators
  import opened ServerState

  /** One file part of the multipart body, as multer hands it on:
      `originalName` is `file.originalname`, the filename busboy reports
      after cutting the client's name down to its last path component. */
  datatype Upload = Upload(originalName: string, mimetype: string, size: nat)

  /** Why multer stops a submission, each with the message of its error. */
  datatype Rejection = UnexpectedField | BadExtension | TooLarge {
    function Message(): string {
      match this
      case UnexpectedField => "Unexpected field"
      case BadExtension => "Only .txt and .docker files are allowed"
      case TooLarge => "File too large"
    }
  }

  /** `upload.array("files", 10)`. */
  const MaxFiles: nat := 10
  /** `limits: { fileSize: 10 * 1024 * 1024 }`. */
  const MaxFileSize: nat := 10 * 1024 * 1024
  const AllowedExtensions: seq<string> := [".txt", ".docker"]
  const UploadDir := "uploads/"

  /** The `fileFilter`: the lower-cased extension of the original name is on
      the allow-list. */
  predicate ExtensionAllowed(name: string)
    ensures ExtensionAllowed(name) <==> ToLower(ExtName(name)) in AllowedExtensions
  {
    IncludesIsMembership(AllowedExtensions, ToLower(ExtName(name)));
    Includes(AllowedExtensions, ToLower(ExtName(name)))
  }

  /** `list.includes(x)`. */
  predicate Includes(list: seq<string>, x: string) {
    |list| > 0 && (list[0] == x || Includes(list[1..], x))
  }

  /** `includes` is membership. */
  lemma {:induction false} IncludesIsMembership(list: seq<string>, x: string)
    ensures Includes(list, x) <==> x in list
    decreases |list|
  {
    if |list| > 0 {
      IncludesIsMembership(list[1..], x);
      assert list == [list[0]] + list[1..];
    }
  }

  predicate Acceptable(u: Upload) {
    ExtensionAllowed(u.originalName) && u.size <= MaxFileSize
  }

  /** What multer does with the file at position `i`: the count check comes
      first, then the filter, then the size limit while the file is
      written. */
  function RejectionAt(i: nat, u: Upload): (r: Option<Rejection>)
    ensures r.None? <==> i < MaxFiles && Acceptable(u)
  {
    if i >= MaxFiles then Some(UnexpectedField)
    else if !ExtensionAllowed(u.originalName) then Some(BadExtension)
    else if u.size > MaxFileSize then Some(TooLarge)
    else None
  }

  /** The first present entry of `xs`, scanning from position `i`. */
  function FirstSomeFrom<T>(xs: seq<Option<T>>, i: nat): (r: Option<T>)
    requires i <= |xs|
    ensures r.None? <==> forall j | i <= j < |xs| :: xs[j].None?
    ensures r.Some? ==> exists j | i <= j < |xs| :: r == xs[j] && forall k | i <= k < j :: xs[k].None?
    decreases |xs| - i
  {
    if i == |xs| then None
    else if xs[i].Some? then xs[i]
    else FirstSomeFrom(xs, i + 1)
  }

  /** The verdict on each file of a submission, in upload order. */
  function Verdicts(ups: seq<Upload>): (vs: seq<Option<Rejection>>)
    ensures |vs| == |ups|
    ensures forall j | 0 <= j < |ups| :: vs[j] == RejectionAt(j, ups[j])
  {
    seq(|ups|, j requires 0 <= j < |ups| => RejectionAt(j, ups[j]))
  }

  /** The rejection of the first file multer refuses, if any. The whole
      submission passes exactly when it has at most ten files and each of
      them passes the filter and the size limit. */
  function FirstRejection(ups: seq<Upload>): (r: Option<Rejection>)
    ensures r.None? <==> |ups| <= MaxFiles && forall j | 0 <= j < |ups| :: Acceptable(ups[j])
    ensures r.Some? ==> exists j | 0 <= j < |ups| ::
                          && r == RejectionAt(j, ups[j])
                          && forall k | 0 <= k < j :: RejectionAt(k, ups[k]).None?
  {
    var vs := Verdicts(ups);
    var r := FirstSomeFrom(vs, 0);
    assert |ups| > MaxFiles ==> vs[MaxFiles].Some?;
    r
  }

  /** The first file multer refuses decides the error of the whole
      submission. */
  lemma FirstRefusedDecides(ups: seq<Upload>, j: nat)
    requires j < |ups| && RejectionAt(j, ups[j]).Some?
    requires forall k | 0 <= k < j :: RejectionAt(k, ups[k]).None?
    ensures FirstRejection(ups) == RejectionAt(j, ups[j])
  {
    FirstSomeFromAt(Verdicts(ups), 0, j);
  }

  /** Scanning from `i` stops at the first present entry. */
  lemma {:induction false} FirstSomeFromAt<T>(xs: seq<Option<T>>, i: nat, j: nat)
    requires i <= j < |xs| && xs[j].Some?
    requires forall k | i <= k < j :: xs[k].None?
    ensures FirstSomeFrom(xs, i) == xs[j]
    decreases j - i
  {
    if i < j {
      FirstSomeFromAt(xs, i + 1, j);
    }
  }

  /** An eleventh file is refused as an unexpected field once the first ten
      pass. */
  lemma TooManyFiles(ups: seq<Upload>)
    requires |ups| > MaxFiles
    requires forall j | 0 <= j < MaxFiles :: Acceptable(ups[j])
    ensures FirstRejection(ups) == Some(UnexpectedField)
  {
    var r := FirstRejection(ups);
    var j :| 0 <= j < |ups| && r == RejectionAt(j, ups[j]) && forall k | 0 <= k < j :: RejectionAt(k, ups[k]).None?;
    assert j >= MaxFiles;
  }

  /** The files multer hands on: a part whose filename is empty is drained
      and dropped before any check, the count included. */
  function Received(ups: seq<Upload>): (r: seq<Upload>)
    ensures |r| <= |ups|
    ensures forall j | 0 <= j < |r| :: r[j].originalName != ""
  {
    if |ups| == 0 then []
    else (if ups[0].originalName == "" then [] else [ups[0]]) + Received(ups[1..])
  }

  /** Every named part is handed on as often as it was sent, and nothing
      else is. */
  lemma {:induction false} ReceivedContents(ups: seq<Upload>)
    ensures forall u :: multiset(Received(ups))[u] == if u.originalName == "" then 0 else multiset(ups)[u]
    decreases |ups|
  {
    if |ups| > 0 {
      ReceivedContents(ups[1..]);
      assert ups == [ups[0]] + ups[1..];
    }
  }

  /** Dropping the unnamed parts keeps the order of the others. */
  lemma {:induction false} ReceivedAppend(a: seq<Upload>, b: seq<Upload>)
    ensures Received(a + b) == Received(a) + Received(b)
    decreases |a|
  {
    if |a| == 0 {
      assert a + b == b;
    } else {
      var head := if a[0].originalName == "" then [] else [a[0]];
      assert Received(a + b) == head + Received(a[1..] + b) by {
        assert (a + b)[0] == a[0] && (a + b)[1..] == a[1..] + b;
      }
      ReceivedAppend(a[1..], b);
      assert head + (Received(a[1..]) + Received(b)) == (head + Received(a[1..])) + Received(b);
    }
  }

  /** A submission whose parts all have names reaches the checks whole. */
  lemma {:induction false} ReceivedAllNamed(ups: seq<Upload>)
    requires forall j | 0 <= j < |ups| :: ups[j].originalName != ""
    ensures Received(ups) == ups
    decreases |ups|
  {
    if |ups| > 0 {
      ReceivedAllNamed(ups[1..]);
    }
  }

  /** The name the disk storage gives the file: a fresh uuid followed by the
      extension of the original name, its case kept. */
  function StoredName(svc: Services, k: nat, u: Upload): string {
    svc.uuid(k) + ExtName(u.originalName)
  }

  /** The descriptors `req.files.map(...)` builds, the `k`-th file named with
      the uuid numbered `first + k` and stored under the upload
      directory. */
  function FileRecords(svc: Services, first: nat, ups: seq<Upload>): (files: seq<FileRecord>)
    ensures |files| == |ups|
    ensures forall k | 0 <= k < |ups| ::
              && files[k].filename == svc.uuid(first + k) + ExtName(ups[k].originalName)
              && files[k].path == UploadDir + files[k].filename
              && files[k].originalName == ups[k].originalName
              && files[k].mimetype == ups[k].mimetype
              && files[k].size == ups[k].size
  {
    seq(|ups|, k requires 0 <= k < |ups| =>
      var name := StoredName(svc, first + k, ups[k]);
      FileRecord(name, ups[k].originalName, ups[k].mimetype, ups[k].size, UploadDir + name))
  }

  /** The stored name reports the same extension as the original name. */
  lemma StoredNameKeepsExtension(svc: Services, k: nat, u: Upload)
    requires Lawful(svc)
    ensures ExtName(StoredName(svc, k, u)) == ExtName(u.originalName)
  {
    var id := svc.uuid(k);
    assert id != "" && '.' !in id && '/' !in id;
    ExtNameAfterPlain(id, ExtName(u.originalName));
  }

  /** Stored names drawn from different uuid numbers never collide, whatever
      the original names: a uuid has no dot, and an extension is empty or
      starts with one, so the first dot of a stored name marks where its
      uuid ends. */
  lemma StoredNamesDistinct(svc: Services, k: nat, u: Upload, m: nat, v: Upload)
    requires Lawful(svc)
    requires k != m
    ensures StoredName(svc, k, u) != StoredName(svc, m, v)
  {
    var a, b := svc.uuid(k), svc.uuid(m);
    var e, f := ExtName(u.originalName), ExtName(v.originalName);
    assert '.' !in a && '.' !in b && a != b;
    if |a| < |b| {
      PlainPrefixes(a, e, b, f);
    } else if |b| < |a| {
      PlainPrefixes(b, f, a, e);
    } else {
      assert (a + e)[..|a|] == a && (b + f)[..|b|] == b;
    }
  }

  /** Of two texts without dots, each followed by an empty text or one that
      starts with a dot, the shorter cannot begin the same text as the
      longer. */
  lemma PlainPrefixes(a: string, e: string, b: string, f: string)
    requires '.' !in a && '.' !in b && |a| < |b|
    requires e == "" || e[0] == '.'
    ensures a + e != b + f
  {
    if e != "" {
      assert (a + e)[|a|] != (b + f)[|a|];
    }
  }

  /** For a name `<stem>.<ext>` the filter looks only at the lower-cased
      `.<ext>`, whatever the stem: `REPORT.TXT` passes, `notes.pdf` does
      not. */
  lemma ExtensionFilterOf(stem: string, ext: string)
    requires stem != "" && '/' !in stem
    requires '/' !in ext && '.' !in ext
    requires !(stem == "." && ext == "")
    ensures ExtensionAllowed(stem + "." + ext) <==> ToLower("." + ext) in AllowedExtensions
  {
    ExtNameOf(stem, ext);
    IncludesIsMembership(AllowedExtensions, ToLower("." + ext));
  }

  /** `DOCKER` written with the Kelvin sign for its `K`. */
  const KelvinDocker: string := "DOC" + [KelvinSign] + "ER"

  /** `toLowerCase` turns the Kelvin sign into `k`, so any name
      `<stem>.DOC` + U+212A + `ER` has the allowed extension `.docker`. */
  lemma KelvinDockerAllowed(stem: string)
    requires stem != "" && '/' !in stem
    ensures ExtensionAllowed(stem + "." + KelvinDocker)
  {
    assert '.' !in KelvinDocker && '/' !in KelvinDocker;
    ExtNameOf(stem, KelvinDocker);
    KelvinDockerLowers();
  }

  lemma KelvinDockerLowers()
    ensures ToLower("." + KelvinDocker) == ".docker"
  {
    var dotted := "." + KelvinDocker;
    var low := ToLower(dotted);
    assert dotted[4] == KelvinSign;
    assert low[..4] == ".doc" && low[4..] == "ker";
    assert low == low[..4] + low[4..];
  }
}
