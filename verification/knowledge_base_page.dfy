/** The knowledge-base admin page's list logic: the case-insensitive search over name,
    description and tags, deletion by ID, the upload that puts a new entry at the head of the
    list with a type taken from the file name, and the file-size label for an empty file. The
    simulated server calls cannot fail; the confirmation dialog, the clock and the upload
    picker are parameters. */
module KnowledgeBasePage {
  import opened Common
  import opened Strings

  datatype Status = Active | Archived | Processing

  /** A listed file. `kind` is the `type` field: upload stores whatever the name yields, so it
      is kept as text. */
  datatype KnowledgeFile = KnowledgeFile(
    id: string, name: string, kind: string, size: nat, uploadDate: string, uploadedBy: string,
    description: string, tags: Option<seq<string>>, status: Status, content: Option<string>)

  // ---------------------------------------------------------------- search

  /** Some tag of `tags` contains `term`, both lower-cased. */
  predicate SomeTagMatches(tags: seq<string>, term: string) {
    exists k :: 0 <= k < |tags| && Contains(ToLower(tags[k]), ToLower(term))
  }

  /** The search predicate: the lower-cased term occurs in the lower-cased name, description
      or one of the tags (a file without tags matches on name and description only). */
  predicate Matches(f: KnowledgeFile, term: string) {
    || Contains(ToLower(f.name), ToLower(term))
    || Contains(ToLower(f.description), ToLower(term))
    || (f.tags.Some? && SomeTagMatches(f.tags.value, term))
  }

  /** The files shown for `term`, in list order. */
  function Filter(files: seq<KnowledgeFile>, term: string): (r: seq<KnowledgeFile>)
    ensures |r| <= |files|
    ensures forall f :: f in r <==> f in files && Matches(f, term)
    decreases |files|
  {
    if |files| == 0 then []
    else (if Matches(files[0], term) then [files[0]] else []) + Filter(files[1..], term)
  }

  /** Filtering a concatenation filters each part and keeps them in order. */
  lemma {:induction false} FilterAppend(a: seq<KnowledgeFile>, b: seq<KnowledgeFile>, term: string)
    ensures Filter(a + b, term) == Filter(a, term) + Filter(b, term)
    decreases |a|
  {
    if |a| > 0 {
      assert (a + b)[1..] == a[1..] + b;
      FilterAppend(a[1..], b, term);
    } else {
      assert a + b == b;
    }
  }

  /** A list whose every file matches is shown whole. */
  lemma {:induction false} FilterKeepsMatching(files: seq<KnowledgeFile>, term: string)
    requires forall k :: 0 <= k < |files| ==> Matches(files[k], term)
    ensures Filter(files, term) == files
    decreases |files|
  {
    if |files| > 0 {
      FilterKeepsMatching(files[1..], term);
    }
  }

  /** Filtering twice with the same term is filtering once. */
  lemma {:induction false} FilterIdempotent(files: seq<KnowledgeFile>, term: string)
    ensures Filter(Filter(files, term), term) == Filter(files, term)
  {
    var r := Filter(files, term);
    forall k | 0 <= k < |r| ensures Matches(r[k], term) {
      assert r[k] in r;
    }
    FilterKeepsMatching(r, term);
  }

  /** The empty string occurs in every text. */
  lemma EmptyOccurs(s: string)
    ensures Contains(s, "")
  {
    assert OccursAt(s, "", 0);
  }

  /** An empty search shows every file. */
  lemma EmptyTermShowsAll(files: seq<KnowledgeFile>)
    ensures Filter(files, "") == files
  {
    forall k | 0 <= k < |files| ensures Matches(files[k], "") {
      EmptyOccurs(ToLower(files[k].name));
    }
    FilterKeepsMatching(files, "");
  }

  /** The search ignores ASCII case: two terms that lower-case alike show the same files. */
  lemma {:induction false} SearchIgnoresCase(files: seq<KnowledgeFile>, a: string, b: string)
    requires ToLower(a) == ToLower(b)
    ensures Filter(files, a) == Filter(files, b)
    decreases |files|
  {
    if |files| > 0 {
      SearchIgnoresCase(files[1..], a, b);
    }
  }

  // ---------------------------------------------------------------- delete

  /** `handleDeleteFile`: unless the user cancels the confirmation, drop every entry with the
      ID, keeping the rest in order. */
  function HandleDeleteFile(files: seq<KnowledgeFile>, fileId: string, confirmed: bool)
    : (r: seq<KnowledgeFile>)
    ensures !confirmed ==> r == files
    ensures confirmed ==> forall f :: f in r <==> f in files && f.id != fileId
    ensures |r| <= |files|
    decreases |files|
  {
    if !confirmed || |files| == 0 then files
    else (if files[0].id != fileId then [files[0]] else []) + HandleDeleteFile(files[1..], fileId, true)
  }

  /** How many entries carry the ID. */
  function CountId(files: seq<KnowledgeFile>, fileId: string): nat
    decreases |files|
  {
    if |files| == 0 then 0
    else (if files[0].id == fileId then 1 else 0) + CountId(files[1..], fileId)
  }

  /** Exactly the entries with the ID go: the list shrinks by their number, and deleting an ID
      that is not listed changes nothing. */
  lemma {:induction false} DeleteCount(files: seq<KnowledgeFile>, fileId: string)
    ensures |HandleDeleteFile(files, fileId, true)| + CountId(files, fileId) == |files|
    ensures CountId(files, fileId) == 0 ==> HandleDeleteFile(files, fileId, true) == files
    decreases |files|
  {
    if |files| > 0 {
      DeleteCount(files[1..], fileId);
    }
  }

  /** Deleting twice is deleting once. */
  lemma DeleteIdempotent(files: seq<KnowledgeFile>, fileId: string)
    ensures HandleDeleteFile(HandleDeleteFile(files, fileId, true), fileId, true)
            == HandleDeleteFile(files, fileId, true)
  {
    var once := HandleDeleteFile(files, fileId, true);
    NoIdNoCount(once, fileId);
    DeleteCount(once, fileId);
  }

  lemma {:induction false} NoIdNoCount(files: seq<KnowledgeFile>, fileId: string)
    requires forall f :: f in files ==> f.id != fileId
    ensures CountId(files, fileId) == 0
    decreases |files|
  {
    if |files| > 0 {
      assert files[0] in files;
      NoIdNoCount(files[1..], fileId);
    }
  }

  /** Searching and deleting commute: the list shown after a delete is the shown list with the
      entry removed. */
  lemma {:induction false} DeleteThenFilter(files: seq<KnowledgeFile>, fileId: string, term: string)
    ensures Filter(HandleDeleteFile(files, fileId, true), term)
            == HandleDeleteFile(Filter(files, term), fileId, true)
    decreases |files|
  {
    if |files| > 0 {
      var f0, rest := files[0], files[1..];
      var kept := if f0.id != fileId then [f0] else [];
      var shown := if Matches(f0, term) then [f0] else [];
      assert files == [f0] + rest;
      DeleteThenFilter(rest, fileId, term);
      FilterAppend(kept, HandleDeleteFile(rest, fileId, true), term);
      DeleteAppend(shown, Filter(rest, term), fileId);
      assert Filter(kept, term) == HandleDeleteFile(shown, fileId, true);
    }
  }

  /** Deleting from a concatenation deletes from each part. */
  lemma {:induction false} DeleteAppend(a: seq<KnowledgeFile>, b: seq<KnowledgeFile>, fileId: string)
    ensures HandleDeleteFile(a + b, fileId, true)
            == HandleDeleteFile(a, fileId, true) + HandleDeleteFile(b, fileId, true)
    decreases |a|
  {
    if |a| > 0 {
      assert (a + b)[1..] == a[1..] + b;
      DeleteAppend(a[1..], b, fileId);
    } else {
      assert a + b == b;
    }
  }

  // ---------------------------------------------------------------- upload

  /** A file picked for upload. */
  datatype Picked = Picked(name: string, size: nat)

  /** The last piece of the name split at `.`, lower-cased, or `"other"` when that is empty. */
  function FileKind(name: string): (kind: string)
    ensures kind != "" && '.' !in kind
  {
    var parts := Split(name, '.');
    var ext := ToLower(parts[|parts| - 1]);
    assert '.' !in parts[|parts| - 1];
    assert forall i :: 0 <= i < |ext| ==> ext[i] != '.';
    if ext == "" then "other" else ext
  }

  /** The last piece of a split is the text after the last separator. */
  lemma {:induction false} SplitLast(pre: string, c: char, t: string)
    requires c !in t
    ensures |Split(pre + [c] + t, c)| >= 2
    ensures Split(pre + [c] + t, c)[|Split(pre + [c] + t, c)| - 1] == t
    decreases |pre|
  {
    var s := pre + [c] + t;
    if |pre| == 0 {
      assert s == [c] + t;
      assert s[1..] == t;
      SplitNoSeparator(t, c);
    } else {
      assert s[1..] == pre[1..] + [c] + t;
      SplitLast(pre[1..], c, t);
    }
  }

  /** A dotted name's type is its lower-cased extension, `"other"` when the name ends with a
      dot; a name without a dot is typed by the whole lower-cased name. */
  lemma FileKindOfName(pre: string, ext: string, plain: string)
    requires '.' !in ext && '.' !in plain
    ensures FileKind(pre + "." + ext) == if ext == "" then "other" else ToLower(ext)
    ensures FileKind(plain) == if plain == "" then "other" else ToLower(plain)
  {
    assert pre + "." + ext == pre + ['.'] + ext;
    SplitLast(pre, '.', ext);
    SplitNoSeparator(plain, '.');
  }

  const Uploader: string := "admin@example.com"

  /** The entry an upload creates; `stamp` is `Date.now()` as text and `date` the ISO time. */
  function NewEntry(p: Picked, stamp: string, date: string): (f: KnowledgeFile)
    ensures f.name == p.name && f.size == p.size && f.id == stamp && f.uploadDate == date
    ensures f.kind == FileKind(p.name) && f.status == Active && f.tags.None?
    ensures f.description == "Uploaded file: " + p.name
  {
    KnowledgeFile(stamp, p.name, FileKind(p.name), p.size, date, Uploader,
                  "Uploaded file: " + p.name, None, Active, None)
  }

  /** `handleFileUpload`: nothing without a picked file; otherwise the entry for the first
      picked file goes in front of the list. */
  function HandleFileUpload(files: seq<KnowledgeFile>, picked: seq<Picked>, stamp: string, date: string)
    : (r: seq<KnowledgeFile>)
    ensures |picked| == 0 ==> r == files
    ensures |picked| > 0 ==> (|r| == |files| + 1 && r[1..] == files
                             && r[0] == NewEntry(picked[0], stamp, date))
  {
    if |picked| == 0 then files else [NewEntry(picked[0], stamp, date)] + files
  }

  /** After an upload the search shows the new entry first exactly when it matches, followed by
      what it showed before; deleting the new entry's ID afterwards removes only it, unless an
      older entry shared the ID. */
  lemma UploadThenFilterAndDelete(files: seq<KnowledgeFile>, p: Picked, stamp: string, date: string, term: string)
    ensures var after := HandleFileUpload(files, [p], stamp, date);
            Filter(after, term)
            == (if Matches(NewEntry(p, stamp, date), term) then [NewEntry(p, stamp, date)] else [])
               + Filter(files, term)
    ensures CountId(files, stamp) == 0 ==>
              HandleDeleteFile(HandleFileUpload(files, [p], stamp, date), stamp, true) == files
  {
    var after := HandleFileUpload(files, [p], stamp, date);
    assert after[1..] == files;
    if CountId(files, stamp) == 0 {
      DeleteCount(files, stamp);
    }
  }

  // ---------------------------------------------------------------- sizes

  /** `formatFileSize` for an empty file; any other size goes through floating-point logarithms
      and rounding, which is not modelled, so the result is then absent. */
  function FormatFileSize(bytes: nat): (shown: Option<string>)
    ensures shown.Some? <==> bytes == 0
    ensures shown.Some? ==> shown.value == "0 Bytes"
  {
    if bytes == 0 then Some("0 Bytes") else None
  }
}
