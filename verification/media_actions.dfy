/** The media library's server actions (src/app/actions/mediaActions.js):
  * the recursive listing of the image files under the uploads directory,
  * its ordering, and the guarded deletion of one image.
  *
  * The directory tree that `readdir` reports is an input value; the files
  * `unlink` removes live in a `FileSystem` object. Paths are POSIX paths.
  */
module MediaActions {
  import opened JsText

  const SLASH: CodeUnit := 0x2F
  const BACKSLASH: CodeUnit := 0x5C
  const DOT: CodeUnit := 0x2E

  /** A directory entry as `readdir(dir, { withFileTypes: true })` reports it. */
  datatype Entry = File(name: JsString) | Dir(name: JsString, entries: seq<Entry>)

  // ---------------------------------------------------------------------
  // getFilesRecursively

  /** The case folding of a regular expression with the `i` flag and no `u`
    * flag, on the letters the extension pattern uses: only ASCII letters
    * fold onto them. */
  function AsciiLower(c: CodeUnit): CodeUnit {
    if 0x41 <= c <= 0x5A then c + 0x20 else c
  }

  /** `s` ends with `suffix` (given in lower case) up to ASCII case. */
  predicate EndsWithIgnoringCase(s: JsString, suffix: JsString) {
    |suffix| <= |s| && forall i :: 0 <= i < |suffix| ==> AsciiLower(s[|s| - |suffix| + i]) == suffix[i]
  }

  /** `/\.(jpg|jpeg|png|webp|gif)$/i.test(p)`. */
  predicate IsImagePath(p: JsString) {
    EndsWithIgnoringCase(p, Lit(".jpg")) || EndsWithIgnoringCase(p, Lit(".jpeg"))
    || EndsWithIgnoringCase(p, Lit(".png")) || EndsWithIgnoringCase(p, Lit(".webp"))
    || EndsWithIgnoringCase(p, Lit(".gif"))
  }

  /** `.replace(/\\/g, "/")`. */
  function ForwardSlashes(s: JsString): (r: JsString)
    ensures |r| == |s| && BACKSLASH !in r
    ensures forall i :: 0 <= i < |s| ==> r[i] == (if s[i] == BACKSLASH then SLASH else s[i])
  {
    seq(|s|, i requires 0 <= i < |s| => if s[i] == BACKSLASH then SLASH else s[i])
  }

  /** The absolute path of an entry: `path.resolve(dir, name)` for the
    * directory `root/rel`, where `rel` is empty or ends with `/`. */
  function Resolved(root: JsString, rel: JsString, name: JsString): JsString {
    root + [SLASH] + rel + name
  }

  /** `getFilesRecursively(root/rel)` on the listed entries: the image files
    * of the tree in `readdir` order, each as its path relative to `root`
    * (`path.relative(UPLOADS_DIR, res)`) with forward slashes. */
  function Walk(root: JsString, rel: JsString, entries: seq<Entry>): (r: seq<JsString>)
    ensures forall i :: 0 <= i < |r| ==> BACKSLASH !in r[i]
    decreases entries
  {
    if entries == [] then []
    else
      var e := entries[0];
      assert e in entries;
      var here :=
        if e.Dir? then Walk(root, rel + e.name + [SLASH], e.entries)
        else if IsImagePath(Resolved(root, rel, e.name)) then [ForwardSlashes(rel + e.name)]
        else [];
      here + Walk(root, rel, entries[1..])
  }

  /** Every regular file of the tree, by its raw path relative to `root`,
    * in `readdir` order: the reference the listing is checked against. */
  function AllFiles(rel: JsString, entries: seq<Entry>): seq<JsString>
    decreases entries
  {
    if entries == [] then []
    else
      var e := entries[0];
      assert e in entries;
      (if e.Dir? then AllFiles(rel + e.name + [SLASH], e.entries) else [rel + e.name])
      + AllFiles(rel, entries[1..])
  }

  /** The image files among `paths`, with forward slashes. */
  function ImagesAmong(root: JsString, paths: seq<JsString>): seq<JsString> {
    if paths == [] then []
    else
      (if IsImagePath(root + [SLASH] + paths[0]) then [ForwardSlashes(paths[0])] else [])
      + ImagesAmong(root, paths[1..])
  }

  lemma {:induction false} ImagesAmongAppend(root: JsString, a: seq<JsString>, b: seq<JsString>)
    ensures ImagesAmong(root, a + b) == ImagesAmong(root, a) + ImagesAmong(root, b)
  {
    if a == [] {
      assert a + b == b;
    } else {
      assert (a + b)[1..] == a[1..] + b;
      ImagesAmongAppend(root, a[1..], b);
    }
  }

  /** The listing is exactly the image files of the whole tree, at every
    * depth and in order, each with forward slashes: nothing else is listed,
    * and no null is left. */
  lemma {:induction false} WalkListsAllImages(root: JsString, rel: JsString, entries: seq<Entry>)
    ensures Walk(root, rel, entries) == ImagesAmong(root, AllFiles(rel, entries))
    decreases entries
  {
    if entries != [] {
      var e := entries[0];
      assert e in entries;
      WalkListsAllImages(root, rel, entries[1..]);
      var here := if e.Dir? then AllFiles(rel + e.name + [SLASH], e.entries) else [rel + e.name];
      ImagesAmongAppend(root, here, AllFiles(rel, entries[1..]));
      if e.Dir? {
        WalkListsAllImages(root, rel + e.name + [SLASH], e.entries);
      } else {
        assert Resolved(root, rel, e.name) == root + [SLASH] + (rel + e.name);
        assert [rel + e.name][1..] == [];
      }
    }
  }

  /** A file of a sub-directory is one of the files of the tree. */
  lemma {:induction false} NestedFilesCount(rel: JsString, entries: seq<Entry>, k: nat, p: JsString)
    requires k < |entries| && entries[k].Dir?
    requires p in AllFiles(rel + entries[k].name + [SLASH], entries[k].entries)
    ensures p in AllFiles(rel, entries)
    decreases k
  {
    var e := entries[0];
    assert e in entries;
    if k > 0 {
      NestedFilesCount(rel, entries[1..], k - 1, p);
    }
  }

  // ---------------------------------------------------------------------
  // getMediaLibrary

  /** `localeCompare` is consistent enough to sort by: of two strings, one
    * never comes after the other. */
  ghost predicate Total(localeCompare: (JsString, JsString) -> int) {
    forall a, b :: localeCompare(a, b) <= 0 || localeCompare(b, a) <= 0
  }

  /** Non-increasing in locale order: no file comes before one it precedes
    * in the locale (`(a, b) => b.localeCompare(a)`). */
  predicate SortedDescending(xs: seq<JsString>, localeCompare: (JsString, JsString) -> int) {
    forall i :: 0 < i < |xs| ==> localeCompare(xs[i], xs[i - 1]) <= 0
  }

  /** Inserting one file into a list sorted by that comparator. */
  function Insert(x: JsString, ys: seq<JsString>, localeCompare: (JsString, JsString) -> int): (r: seq<JsString>)
    ensures multiset(r) == multiset(ys) + multiset{x}
    ensures r[0] == x || (ys != [] && r[0] == ys[0])
  {
    if ys == [] then [x]
    else if localeCompare(ys[0], x) <= 0 then [x] + ys
    else
      assert ys == [ys[0]] + ys[1..];
      [ys[0]] + Insert(x, ys[1..], localeCompare)
  }

  /** `files.sort((a, b) => b.localeCompare(a))`. */
  function SortDescending(xs: seq<JsString>, localeCompare: (JsString, JsString) -> int): (r: seq<JsString>)
    ensures multiset(r) == multiset(xs)
  {
    if xs == [] then []
    else
      assert xs == [xs[0]] + xs[1..];
      Insert(xs[0], SortDescending(xs[1..], localeCompare), localeCompare)
  }

  lemma {:induction false} InsertSorted(x: JsString, ys: seq<JsString>, localeCompare: (JsString, JsString) -> int)
    requires Total(localeCompare) && SortedDescending(ys, localeCompare)
    ensures SortedDescending(Insert(x, ys, localeCompare), localeCompare)
  {
    if ys != [] && localeCompare(ys[0], x) > 0 {
      InsertSorted(x, ys[1..], localeCompare);
      assert localeCompare(x, ys[0]) <= 0;
    }
  }

  /** The library comes out sorted, newest-named first, and holds exactly the
    * listed files. */
  lemma {:induction false} SortDescendingSorted(xs: seq<JsString>, localeCompare: (JsString, JsString) -> int)
    requires Total(localeCompare)
    ensures SortedDescending(SortDescending(xs, localeCompare), localeCompare)
  {
    if xs != [] {
      SortDescendingSorted(xs[1..], localeCompare);
      InsertSorted(xs[0], SortDescending(xs[1..], localeCompare), localeCompare);
    }
  }

  /** `getMediaLibrary()`: `tree` is what the walk reads under `UPLOADS_DIR`,
    * `None` when `mkdir` or a `readdir` fails, which is answered with `[]`. */
  function GetMediaLibrary(uploads: JsString, tree: Option<seq<Entry>>,
                           localeCompare: (JsString, JsString) -> int): (r: seq<JsString>)
    ensures tree.None? ==> r == []
    ensures tree.Some? ==> multiset(r) == multiset(ImagesAmong(uploads, AllFiles([], tree.value)))
  {
    if tree.None? then []
    else
      WalkListsAllImages(uploads, [], tree.value);
      SortDescending(Walk(uploads, [], tree.value), localeCompare)
  }

  /** With a consistent `localeCompare`, the library is in descending order. */
  lemma MediaLibrarySorted(uploads: JsString, tree: Option<seq<Entry>>, localeCompare: (JsString, JsString) -> int)
    requires Total(localeCompare)
    ensures SortedDescending(GetMediaLibrary(uploads, tree, localeCompare), localeCompare)
  {
    if tree.Some? {
      SortDescendingSorted(Walk(uploads, [], tree.value), localeCompare);
    }
  }

  // ---------------------------------------------------------------------
  // deleteImage

  /** The segments an absolute path resolves to: empty and `.` segments
    * vanish, and `..` removes the segment before it (nothing at the root). */
  function ResolveSegments(segs: seq<JsString>): (r: seq<JsString>)
    ensures forall i :: 0 <= i < |r| ==> r[i] != [] && r[i] != [DOT] && r[i] != [DOT, DOT]
  {
    if segs == [] then []
    else
      var done := ResolveSegments(segs[..|segs| - 1]);
      var s := segs[|segs| - 1];
      if s == [] || s == [DOT] then done
      else if s == [DOT, DOT] then (if done == [] then [] else done[..|done| - 1])
      else done + [s]
  }

  /** `path.normalize` of an absolute POSIX path; a trailing separator is kept. */
  function Normalize(p: JsString): (r: JsString)
    requires p != [] && p[0] == SLASH
    ensures r != [] && r[0] == SLASH
  {
    var stack := ResolveSegments(Split(p, SLASH));
    if stack == [] then [SLASH]
    else [SLASH] + Join(stack, SLASH) + (if p[|p| - 1] == SLASH then [SLASH] else [])
  }

  /** `path.join(UPLOADS_DIR, imagePath)` for a non-empty `imagePath`. */
  function FullPath(uploads: JsString, imagePath: JsString): (r: JsString)
    requires uploads != [] && uploads[0] == SLASH
    ensures r != [] && r[0] == SLASH
  {
    Normalize(uploads + [SLASH] + imagePath)
  }

  /** Why `unlink` fails. */
  datatype ErrorCode = ENOENT | EISDIR | OtherError

  /** The messages `deleteImage` answers with. */
  datatype DeleteMessage = InvalidPath | NotFound | ServerError

  datatype DeleteResult = Deleted | NotDeleted(message: DeleteMessage)

  /** The part of the filesystem `unlink` can change: its regular files and
    * its directories, by absolute path. */
  class FileSystem {
    var files: set<JsString>
    var dirs: set<JsString>

    constructor (files0: set<JsString>, dirs0: set<JsString>)
      ensures files == files0 && dirs == dirs0
    {
      files, dirs := files0, dirs0;
    }

    /** `fs.unlink(p)`: a regular file is removed; a directory gives EISDIR
      * and a missing path ENOENT. `fault` is any other I/O error. */
    method Unlink(p: JsString, fault: bool) returns (err: Option<ErrorCode>)
      modifies this
      ensures dirs == old(dirs)
      ensures err.None? <==> !fault && p in old(files)
      ensures files == if err.None? then old(files) - {p} else old(files)
      ensures err.Some? ==> err.value == (if fault then OtherError else if p in old(dirs) then EISDIR else ENOENT)
    {
      if fault {
        return Some(OtherError);
      }
      if p in files {
        files := files - {p};
        return None;
      }
      err := if p in dirs then Some(EISDIR) else Some(ENOENT);
    }
  }

  /** `deleteImage(imagePath)`: an empty path is refused; the joined path
    * must start with `UPLOADS_DIR` as a string; the unlink error ENOENT is
    * answered as "not found" and every other error, the guard's included,
    * as a server error. */
  method DeleteImage(fs: FileSystem, uploads: JsString, imagePath: Option<JsString>, fault: bool)
    returns (r: DeleteResult)
    requires uploads != [] && uploads[0] == SLASH
    modifies fs
    ensures fs.dirs == old(fs.dirs)
    ensures Blank(imagePath) ==> r == NotDeleted(InvalidPath) && fs.files == old(fs.files)
    ensures !Blank(imagePath) ==>
      var full := FullPath(uploads, imagePath.value);
      && (r == Deleted <==> StartsWith(full, uploads) && !fault && full in old(fs.files))
      && fs.files == (if r == Deleted then old(fs.files) - {full} else old(fs.files))
      && (r != Deleted ==>
            r.message == (if StartsWith(full, uploads) && !fault && full !in old(fs.dirs) then NotFound else ServerError))
    ensures fs.files <= old(fs.files)
    ensures forall f :: f in old(fs.files) && f !in fs.files ==>
              !Blank(imagePath) && f == FullPath(uploads, imagePath.value) && StartsWith(f, uploads)
  {
    if Blank(imagePath) {
      return NotDeleted(InvalidPath);
    }
    var full := FullPath(uploads, imagePath.value);
    if !StartsWith(full, uploads) {
      return NotDeleted(ServerError);
    }
    var err := fs.Unlink(full, fault);
    if err.None? {
      r := Deleted;
    } else if err.value == ENOENT {
      r := NotDeleted(NotFound);
    } else {
      r := NotDeleted(ServerError);
    }
  }

  /** One more segment on the right resolves as the last step of the loop. */
  lemma ResolveSnoc(segs: seq<JsString>, s: JsString)
    ensures var done := ResolveSegments(segs);
      ResolveSegments(segs + [s]) ==
        if s == [] || s == [DOT] then done
        else if s == [DOT, DOT] then (if done == [] then [] else done[..|done| - 1])
        else done + [s]
  {
    assert (segs + [s])[..|segs|] == segs;
  }

  const U: JsString := [0x75]
  const U2: JsString := [0x75, 0x32]
  const A: JsString := [0x61]
  const X: JsString := [0x78]
  const DOTDOT: JsString := [DOT, DOT]

  lemma EscapeSplit()
    ensures Split(Lit("/u") + [SLASH] + Lit("../x"), SLASH) == [[], U, DOTDOT, X]
  {
    assert Lit("/u") + [SLASH] + Lit("../x") == [] + [SLASH] + (U + [SLASH] + (DOTDOT + [SLASH] + X));
    SplitAt([], SLASH, U + [SLASH] + (DOTDOT + [SLASH] + X));
    SplitAt(U, SLASH, DOTDOT + [SLASH] + X);
    SplitAt(DOTDOT, SLASH, X);
    SplitNoSeparator(X, SLASH);
  }

  /** The sample names are ordinary segments. */
  lemma PlainSegments()
    ensures forall n :: n in [U, U2, A, X] ==> n != [] && n != [DOT] && n != DOTDOT
  {
    assert U[0] != DOT && U2[0] != DOT && A[0] != DOT && X[0] != DOT;
  }

  /** `/u/..` resolves to the root. */
  lemma UpAgainResolve()
    ensures ResolveSegments([[], U, DOTDOT]) == []
  {
    var s0: seq<JsString> := [];
    ResolveSnoc(s0, []);
    var s1 := s0 + [[]];
    assert ResolveSegments(s1) == [];
    PlainSegments();
    ResolveSnoc(s1, U);
    var s2 := s1 + [U];
    assert ResolveSegments(s2) == [U];
    ResolveSnoc(s2, DOTDOT);
    assert s2 + [DOTDOT] == [[], U, DOTDOT];
  }

  lemma EscapeResolve()
    ensures ResolveSegments([[], U, DOTDOT, X]) == [X]
  {
    var s3: seq<JsString> := [[], U, DOTDOT];
    UpAgainResolve();
    PlainSegments();
    ResolveSnoc(s3, X);
    assert s3 + [X] == [[], U, DOTDOT, X];
  }

  /** `../` that leaves the directory altogether is caught by the guard:
    * with `UPLOADS_DIR` = `/u`, the path `../x` joins to `/x`. */
  lemma EscapeRejected()
    ensures FullPath(Lit("/u"), Lit("../x")) == Lit("/x")
    ensures !StartsWith(Lit("/x"), Lit("/u"))
  {
    EscapeSplit();
    EscapeResolve();
    assert Join([X], SLASH) == X;
    assert Lit("/x") == [SLASH] + X;
  }

  lemma SiblingSplit()
    ensures Split(Lit("/u") + [SLASH] + Lit("../u2/a"), SLASH) == [[], U, DOTDOT, U2, A]
  {
    assert Lit("/u") + [SLASH] + Lit("../u2/a") == [] + [SLASH] + (U + [SLASH] + (DOTDOT + [SLASH] + (U2 + [SLASH] + A)));
    SplitAt([], SLASH, U + [SLASH] + (DOTDOT + [SLASH] + (U2 + [SLASH] + A)));
    SplitAt(U, SLASH, DOTDOT + [SLASH] + (U2 + [SLASH] + A));
    SplitAt(DOTDOT, SLASH, U2 + [SLASH] + A);
    SplitAt(U2, SLASH, A);
    SplitNoSeparator(A, SLASH);
  }

  lemma SiblingResolve()
    ensures ResolveSegments([[], U, DOTDOT, U2, A]) == [U2, A]
  {
    var s3: seq<JsString> := [[], U, DOTDOT];
    UpAgainResolve();
    PlainSegments();
    ResolveSnoc(s3, U2);
    var s4 := s3 + [U2];
    assert ResolveSegments(s4) == [U2];
    ResolveSnoc(s4, A);
    assert ResolveSegments(s4 + [A]) == [U2] + [A];
    assert s4 + [A] == [[], U, DOTDOT, U2, A];
  }

  /** The guard is a string prefix test, so a sibling directory whose name
    * extends the uploads directory's passes it: with `UPLOADS_DIR` = `/u`,
    * the path `../u2/a` joins to `/u2/a`, which starts with `/u` but lies
    * outside `/u/`. */
  lemma SiblingPassesGuard()
    ensures FullPath(Lit("/u"), Lit("../u2/a")) == Lit("/u2/a")
    ensures StartsWith(Lit("/u2/a"), Lit("/u")) && !StartsWith(Lit("/u2/a"), Lit("/u/"))
  {
    SiblingSplit();
    SiblingResolve();
    assert Join([U2, A], SLASH) == U2 + [SLASH] + A;
    assert Lit("/u2/a") == [SLASH] + U2 + [SLASH] + A;
    assert Lit("/u2/a")[..2] == Lit("/u");
    assert Lit("/u2/a")[2] != Lit("/u/")[2];
  }
}
