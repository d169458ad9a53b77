// The checksum manifest of a published run: writing it, reading it back against
// a folder, and what a reading that passes says about the folder.
module Manifests {
  import opened Options
  import opened Texts
  import opened Orders
  import opened Globs

  /** The line boundaries of `str.splitlines`. */
  type Boundary = char -> bool

  predicate HexDigit(c: char) {
    '0' <= c <= '9' || 'a' <= c <= 'f'
  }

  predicate IsDigest(s: string) {
    |s| == 64 && forall k :: 0 <= k < |s| ==> HexDigit(s[k])
  }

  ghost predicate SaneBoundary(b: Boundary) {
    b('\n') && b('\r') && !b(' ') && !b('/') && forall c :: HexDigit(c) ==> !b(c)
  }

  ghost predicate MakesDigests<C(!new)>(hash: C -> string) {
    forall x :: IsDigest(hash(x))
  }

  /** No file differs between the folders and has one digest in both. */
  ghost predicate NoCollision<C>(hash: C -> string, folder: map<string, C>, other: map<string, C>) {
    forall p :: p in folder && p in other && hash(folder[p]) == hash(other[p]) ==> folder[p] == other[p]
  }

  /** The same names, with the same digests. */
  ghost predicate SameDigests<C>(hash: C -> string, folder: map<string, C>, other: map<string, C>) {
    other.Keys == folder.Keys && forall p :: p in folder ==> hash(folder[p]) == hash(other[p])
  }

  predicate Free(b: Boundary, s: string) {
    forall k :: 0 <= k < |s| ==> !b(s[k])
  }

  // ---------------------------------------------------------------------
  // The folder
  // ---------------------------------------------------------------------

  const MANIFEST := "SHA256SUMS"
  const DONE := "DONE"

  /** What the walk of a run folder meets; `Other` is no file, link or directory. */
  datatype Node<C> = File(content: C) | Link | Directory | Other

  predicate Summed<C>(tree: map<string, Node<C>>, path: string) {
    path in tree && tree[path].File? && path != MANIFEST && path != DONE
  }

  /** The files that the manifest speaks of. */
  function FilesOf<C>(tree: map<string, Node<C>>): map<string, C> {
    map p | p in tree && Summed(tree, p) :: tree[p].content
  }

  predicate NoOther<C>(tree: map<string, Node<C>>) {
    forall p :: p in tree ==> !tree[p].Other?
  }

  // ---------------------------------------------------------------------
  // Reading
  // ---------------------------------------------------------------------

  function FirstBoundary(b: Boundary, s: string): (n: nat)
    ensures n <= |s| && Free(b, s[..n]) && (n < |s| ==> b(s[n]))
  {
    if s == "" || b(s[0]) then 0
    else
      var n := 1 + FirstBoundary(b, s[1..]);
      assert s[..n] == [s[0]] + s[1..][..n - 1];
      n
  }

  function SplitLines(b: Boundary, s: string): seq<string>
    decreases |s|
  {
    if s == "" then []
    else
      var n := FirstBoundary(b, s);
      if n == |s| then [s]
      else if s[n] == '\r' && n + 1 < |s| && s[n + 1] == '\n' then [s[..n]] + SplitLines(b, s[n + 2..])
      else [s[..n]] + SplitLines(b, s[n + 1..])
  }

  /** The path as it is compared: relative, not climbing, without empty and dot components. */
  function KeyOf(path: string): Option<string> {
    var kept := RealChunks(Split(path, '/'));
    if Absolute(path) || kept == [] || ".." in kept then None else Some(Join(kept, '/'))
  }

  datatype Entry = Entry(key: string, digest: string)

  function EntryOf(line: string): Option<Entry> {
    if |line| < 67 || !IsDigest(line[..64]) || line[64] != ' ' || line[65] != ' ' then None
    else
      var key := KeyOf(line[66..]);
      if key.None? then None else Some(Entry(key.value, line[..64]))
  }

  ghost predicate WrittenAs(line: string, entry: Entry) {
    exists path: string :: line == entry.digest + "  " + path && KeyOf(path) == Some(entry.key)
  }

  /** A line is an entry iff it is 64 lower-case hexadecimal digits, two spaces and a
      path that is neither absolute nor climbing nor empty. */
  lemma EntryIff(line: string, entry: Entry)
    ensures EntryOf(line) == Some(entry) <==>
      && |entry.digest| == 64 && (forall c :: c in entry.digest ==> '0' <= c <= '9' || 'a' <= c <= 'f')
      && WrittenAs(line, entry)
  {
    hide KeyOf;
    if EntryOf(line) == Some(entry) {
      var path := line[66..];
      assert line == entry.digest + "  " + path;
    }
    if |entry.digest| == 64 && WrittenAs(line, entry) {
      var path: string :| line == entry.digest + "  " + path && KeyOf(path) == Some(entry.key);
      assert line[..64] == entry.digest && line[66..] == path;
      if path == "" { KeyOfEmpty(); }
    }
    assert forall k :: 0 <= k < |entry.digest| ==> entry.digest[k] in entry.digest;
  }

  lemma KeyOfEmpty()
    ensures KeyOf("") == None
  {
  }

  /** The digests by path; nothing is an unreadable, unsafe, recursive or repeated entry. */
  function Parsed(lines: seq<string>): Option<map<string, string>> {
    if lines == [] then Some(map[])
    else
      var before, entry := Parsed(lines[..|lines| - 1]), EntryOf(lines[|lines| - 1]);
      if before.None? || entry.None? || entry.value.key == MANIFEST || entry.value.key in before.value then None
      else Some(before.value[entry.value.key := entry.value.digest])
  }

  predicate Agrees<C>(expected: map<string, string>, folder: map<string, C>, hash: C -> string) {
    expected.Keys == folder.Keys && forall p :: p in folder ==> expected[p] == hash(folder[p])
  }

  predicate Accepts<C>(b: Boundary, manifest: string, folder: map<string, C>, hash: C -> string) {
    var expected := Parsed(SplitLines(b, manifest));
    expected.Some? && Agrees(expected.value, folder, hash)
  }

  /** `verify_sha256sums`: the manifest is a regular file, nothing odd lies in the
      folder, and the manifest accepts the files. */
  ghost predicate Verified<C>(b: Boundary, manifest: Option<string>, tree: map<string, Node<C>>, hash: C -> string) {
    manifest.Some? && NoOther(tree) && Accepts(b, manifest.value, FilesOf(tree), hash)
  }

  /** The entries of a manifest, line by line. */
  method ReadManifest(lines: seq<string>) returns (expected: Option<map<string, string>>)
    ensures expected == Parsed(lines)
  {
    var entries: map<string, string> := map[];
    for i := 0 to |lines|
      invariant Parsed(lines[..i]) == Some(entries)
    {
      hide EntryOf;
      assert lines[..i + 1][..i] == lines[..i];
      var entry := EntryOf(lines[i]);
      if entry.None? || entry.value.key == MANIFEST || entry.value.key in entries {
        UnreadableStays(lines, i + 1);
        return None;
      }
      entries := entries[entry.value.key := entry.value.digest];
    }
    assert lines[..|lines|] == lines;
    return Some(entries);
  }

  /** The walk of the folder: links are passed over, anything odd is an error. */
  method ActualFiles<C>(tree: map<string, Node<C>>) returns (actual: Option<map<string, C>>)
    ensures actual.Some? <==> NoOther(tree)
    ensures actual.Some? ==> actual.value == FilesOf(tree)
    ensures actual.Some? ==> forall p ::
      p in actual.value <==> p in tree && tree[p].File? && p != "SHA256SUMS" && p != "DONE"
    ensures actual.Some? ==> forall p :: p in actual.value ==> actual.value[p] == tree[p].content
  {
    var found: map<string, C> := map[];
    var rest := tree.Keys;
    while rest != {}
      invariant rest <= tree.Keys && forall p :: p in tree && p !in rest ==> !tree[p].Other?
      invariant forall p :: p in found <==> p in tree && p !in rest && Summed(tree, p)
      invariant forall p :: p in found ==> found[p] == tree[p].content
      decreases rest
    {
      var p :| p in rest;
      if tree[p].Other? { return None; }
      if tree[p].File? && p != MANIFEST && p != DONE { found := found[p := tree[p].content]; }
      rest := rest - {p};
    }
    assert found == FilesOf(tree);
    return Some(found);
  }

  method CompareDigests<C>(expected: map<string, string>, files: map<string, C>, hash: C -> string) returns (ok: bool)
    ensures ok <==> Agrees(expected, files, hash)
  {
    if expected.Keys != files.Keys { return false; }
    var rest := expected.Keys;
    while rest != {}
      invariant rest <= files.Keys && forall p :: p in files && p !in rest ==> expected[p] == hash(files[p])
      decreases rest
    {
      var p :| p in rest;
      if expected[p] != hash(files[p]) { return false; }
      rest := rest - {p};
    }
    return true;
  }

  /** `verify_sha256sums`. */
  method Verify<C>(b: Boundary, manifest: Option<string>, tree: map<string, Node<C>>, hash: C -> string)
    returns (ok: bool)
    ensures ok <==> Verified(b, manifest, tree, hash)
  {
    if manifest.None? { return false; }
    var expected := ReadManifest(SplitLines(b, manifest.value));
    if expected.None? { return false; }
    var actual := ActualFiles(tree);
    if actual.None? { return false; }
    ok := CompareDigests(expected.value, actual.value, hash);
  }

  lemma {:induction false} UnreadableStays(lines: seq<string>, i: nat)
    requires i <= |lines| && Parsed(lines[..i]).None?
    ensures Parsed(lines).None?
    decreases |lines| - i
  {
    if i < |lines| {
      assert lines[..i + 1][..i] == lines[..i];
      UnreadableStays(lines, i + 1);
    } else {
      assert lines[..i] == lines;
    }
  }

  // ---------------------------------------------------------------------
  // Writing
  // ---------------------------------------------------------------------

  function Row(digest: string, path: string): string {
    digest + "  " + path
  }

  function Rows<C>(folder: map<string, C>, hash: C -> string, paths: seq<string>): (r: seq<string>)
    requires forall p :: p in paths ==> p in folder
    ensures |r| == |paths|
  {
    if paths == [] then []
    else
      var n := |paths| - 1;
      assert paths[n] in paths;
      Rows(folder, hash, paths[..n]) + [Row(hash(folder[paths[n]]), paths[n])]
  }

  function JoinLines(rows: seq<string>): string {
    Join(rows, '\n') + "\n"
  }

  predicate OneLine(path: string) {
    '\n' !in path && '\r' !in path
  }

  /** The manifest of a folder: one row per file, in path order. */
  ghost predicate ManifestOf<C>(tree: map<string, Node<C>>, hash: C -> string, manifest: string) {
    exists paths ::
      Lists(paths, FilesOf(tree).Keys, TextLess) && manifest == JoinLines(Rows(FilesOf(tree), hash, paths))
  }

  /** `write_sha256sums`; nothing is a name with a line break. */
  method Write<C>(tree: map<string, Node<C>>, hash: C -> string) returns (manifest: Option<string>)
    ensures manifest.Some? <==> forall p :: Summed(tree, p) ==> OneLine(p)
    ensures manifest.Some? ==> ManifestOf(tree, hash, manifest.value)
  {
    var files := FilesOf(tree);
    TextsRank(files.Keys);
    var paths := Sorted(files.Keys, TextLess);
    hide TextLess, Ranks, JoinLines, Ascending, Row;
    var rows := [];
    for i := 0 to |paths|
      invariant rows == Rows(files, hash, paths[..i])
      invariant forall k :: 0 <= k < i ==> OneLine(paths[k])
    {
      assert paths[i] in paths && paths[..i + 1][..i] == paths[..i];
      if !OneLine(paths[i]) {
        assert Summed(tree, paths[i]);
        return None;
      }
      rows := rows + [Row(hash(files[paths[i]]), paths[i])];
    }
    assert paths[..|paths|] == paths;
    forall p | Summed(tree, p) ensures OneLine(p) {
      assert p in files;
      assert p in paths;
    }
    return Some(JoinLines(rows));
  }

  // ---------------------------------------------------------------------
  // Reading what was written
  // ---------------------------------------------------------------------

  predicate Plain(chunk: string) {
    chunk != "" && chunk != "." && chunk != ".." && '/' !in chunk
  }

  ghost predicate Spells(chunks: seq<string>, path: string) {
    chunks != [] && (forall c :: c in chunks ==> Plain(c)) && Join(chunks, '/') == path
  }

  /** A path that a folder's walk gives: plain components with slashes between. */
  ghost predicate Walked(path: string) {
    exists chunks :: Spells(chunks, path)
  }

  /** Files with paths of a walk, the manifest aside. */
  ghost predicate GoodFolder<C>(folder: map<string, C>) {
    forall p :: p in folder ==> Walked(p) && p != MANIFEST
  }

  lemma {:induction false} PlainKept(chunks: seq<string>)
    requires forall c :: c in chunks ==> Plain(c)
    ensures RealChunks(chunks) == chunks
  {
    if chunks != [] {
      assert chunks[0] in chunks && chunks == [chunks[0]] + chunks[1..];
      PlainKept(chunks[1..]);
    }
  }

  /** A walked path is compared as it is. */
  lemma WalkedKey(path: string)
    requires Walked(path)
    ensures KeyOf(path) == Some(path)
  {
    var chunks :| Spells(chunks, path);
    PlainKept(chunks);
    SplitJoined(chunks, '/');
    assert chunks[0] in chunks && chunks[0][0] in chunks[0];
    assert path[0] == chunks[0][0];
  }

  lemma {:induction false} FirstIs(b: Boundary, s: string, n: nat)
    requires n <= |s| && Free(b, s[..n]) && (n < |s| ==> b(s[n]))
    ensures FirstBoundary(b, s) == n
  {
    if n > 0 {
      assert s[..n][0] == s[0] && s[1..][..n - 1] == s[..n][1..];
      FirstIs(b, s[1..], n - 1);
    }
  }

  lemma SplitRow(b: Boundary, row: string, rest: string)
    requires SaneBoundary(b) && Free(b, row)
    ensures SplitLines(b, row + "\n" + rest) == [row] + SplitLines(b, rest)
  {
    var s := row + "\n" + rest;
    assert s[..|row|] == row && s[|row| + 1..] == rest;
    FirstIs(b, s, |row|);
  }

  lemma JoinLinesNext(rows: seq<string>)
    requires rows != []
    ensures JoinLines(rows) == rows[0] + "\n" + if |rows| == 1 then "" else JoinLines(rows[1..])
  {
    assert rows[0] + "\n" + "" == rows[0] + "\n";
  }

  lemma NoLinesSplit(b: Boundary)
    ensures SplitLines(b, "") == []
  {
  }

  lemma {:induction false} LinesWritten(b: Boundary, rows: seq<string>)
    requires SaneBoundary(b) && rows != [] && forall row :: row in rows ==> Free(b, row)
    ensures SplitLines(b, JoinLines(rows)) == rows
  {
    hide SplitLines, JoinLines, SaneBoundary, Free;
    assert rows[0] in rows && rows == [rows[0]] + rows[1..];
    JoinLinesNext(rows);
    if |rows| == 1 {
      SplitRow(b, rows[0], "");
      NoLinesSplit(b);
    } else {
      LinesWritten(b, rows[1..]);
      SplitRow(b, rows[0], JoinLines(rows[1..]));
    }
  }

  lemma RowRead(digest: string, path: string)
    requires IsDigest(digest) && KeyOf(path) == Some(path)
    ensures EntryOf(Row(digest, path)) == Some(Entry(path, digest))
  {
    KeyOfNothing();
    hide KeyOf, HexDigit;
    var row := Row(digest, path);
    assert row[..64] == digest && row[66..] == path;
  }

  lemma KeyOfNothing()
    ensures KeyOf("") == None
  {
  }

  lemma ParsedNext(rows: seq<string>, row: string, entry: Entry)
    requires Parsed(rows).Some? && EntryOf(row) == Some(entry)
    requires entry.key != MANIFEST && entry.key !in Parsed(rows).value
    ensures Parsed(rows + [row]) == Some(Parsed(rows).value[entry.key := entry.digest])
  {
    hide EntryOf;
    assert (rows + [row])[..|rows|] == rows;
  }

  /** The map has exactly these paths, each with its digest in the folder. */
  ghost predicate DigestsOf<C>(m: Option<map<string, string>>, folder: map<string, C>, hash: C -> string,
                               paths: set<string>) {
    m.Some? && m.value.Keys == paths && forall p :: p in paths ==> p in folder && m.value[p] == hash(folder[p])
  }

  lemma DigestsNext<C>(m: map<string, string>, folder: map<string, C>, hash: C -> string, paths: set<string>, p: string)
    requires DigestsOf(Some(m), folder, hash, paths) && p in folder
    ensures DigestsOf(Some(m[p := hash(folder[p])]), folder, hash, paths + {p})
  {
  }

  lemma DistinctLast(init: seq<string>, last: string)
    requires Distinct(init + [last])
    ensures Distinct(init) && last !in init
  {
    var all := init + [last];
    assert all[|init|] == last && forall k :: 0 <= k < |init| ==> all[k] == init[k];
  }

  lemma RowsNext<C>(folder: map<string, C>, hash: C -> string, init: seq<string>, last: string)
    requires last in folder && forall p :: p in init ==> p in folder
    ensures Rows(folder, hash, init + [last]) == Rows(folder, hash, init) + [Row(hash(folder[last]), last)]
  {
    assert (init + [last])[..|init|] == init;
  }

  lemma NoRows<C>(folder: map<string, C>, hash: C -> string, paths: seq<string>)
    requires paths == []
    ensures DigestsOf(Parsed(Rows(folder, hash, paths)), folder, hash, Members(paths))
  {
  }

  lemma {:induction false} RowsParsed<C(!new)>(folder: map<string, C>, hash: C -> string, paths: seq<string>)
    requires GoodFolder(folder) && MakesDigests(hash) && (forall p :: p in paths ==> p in folder) && Distinct(paths)
    ensures DigestsOf(Parsed(Rows(folder, hash, paths)), folder, hash, Members(paths))
    decreases |paths|
  {
    hide *;
    if paths == [] {
      NoRows(folder, hash, paths);
    } else {
      var init, last := paths[..|paths| - 1], paths[|paths| - 1];
      assert paths == init + [last] && last in folder;
      DistinctLast(init, last);
      FileFacts(folder, hash, last);
      RowsParsed(folder, hash, init);
      ParsedSome(folder, hash, init);
      RowsNext(folder, hash, init, last);
      RowRead(hash(folder[last]), last);
      ParsedNext(Rows(folder, hash, init), Row(hash(folder[last]), last), Entry(last, hash(folder[last])));
      DigestsNext(Parsed(Rows(folder, hash, init)).value, folder, hash, Members(init), last);
      MembersMore(init, last);
    }
  }

  lemma FileFacts<C(!new)>(folder: map<string, C>, hash: C -> string, p: string)
    requires GoodFolder(folder) && MakesDigests(hash) && p in folder
    ensures KeyOf(p) == Some(p) && p != MANIFEST && IsDigest(hash(folder[p]))
  {
    WalkedKey(p);
    hide KeyOf, IsDigest;
  }

  lemma ParsedSome<C>(folder: map<string, C>, hash: C -> string, paths: seq<string>)
    requires forall p :: p in paths ==> p in folder
    requires DigestsOf(Parsed(Rows(folder, hash, paths)), folder, hash, Members(paths))
    ensures var m := Parsed(Rows(folder, hash, paths)); m.Some? && m == Some(m.value)
    ensures forall p :: p in Parsed(Rows(folder, hash, paths)).value ==> p in paths
  {
    hide Parsed, Rows;
  }

  lemma {:induction false} RowsFree<C(!new)>(b: Boundary, folder: map<string, C>, hash: C -> string, paths: seq<string>)
    requires SaneBoundary(b) && MakesDigests(hash) && (forall p :: p in paths ==> p in folder && Free(b, p))
    ensures forall row :: row in Rows(folder, hash, paths) ==> Free(b, row)
    decreases |paths|
  {
    if paths != [] {
      var n := |paths| - 1;
      assert paths == paths[..n] + [paths[n]];
      RowsFree(b, folder, hash, paths[..n]);
      RowFree(b, hash(folder[paths[n]]), paths[n]);
    }
  }

  lemma RowFree(b: Boundary, digest: string, path: string)
    requires SaneBoundary(b) && IsDigest(digest) && Free(b, path)
    ensures Free(b, Row(digest, path))
  {
  }

  /** The writer's order lists every file once; no order changes what is read. */
  lemma ListedOnce(files: seq<string>, s: set<string>)
    requires Lists(files, s, TextLess)
    ensures Distinct(files) && Members(files) == s
  {
    TextsRank(s);
    hide TextLess;
    forall i, j | 0 <= i < j < |files| ensures files[i] != files[j] {
      assert files[i] in files && files[j] in files && TextLess(files[i], files[j]);
    }
  }

  /** A written manifest is read as exactly the folder's digests, when the folder
      has files and no file name holds a line boundary. */
  lemma WrittenParsed<C(!new)>(b: Boundary, folder: map<string, C>, hash: C -> string, files: seq<string>)
    requires SaneBoundary(b) && GoodFolder(folder) && MakesDigests(hash)
    requires Distinct(files) && Members(files) == folder.Keys
    requires folder.Keys != {} && forall p :: p in folder ==> Free(b, p)
    ensures DigestsOf(Parsed(SplitLines(b, JoinLines(Rows(folder, hash, files)))), folder, hash, folder.Keys)
  {
    hide SplitLines, JoinLines, KeyOf, EntryOf, MakesDigests, SaneBoundary, Parsed, Free, Distinct;
    var p :| p in folder;
    assert p in files;
    RowsFree(b, folder, hash, files);
    LinesWritten(b, Rows(folder, hash, files));
    RowsParsed(folder, hash, files);
  }

  /** A manifest accepts exactly the folders with the names and digests of the one
      it was written from. */
  lemma AcceptsSameDigests<C(!new)>(b: Boundary, folder: map<string, C>, other: map<string, C>, hash: C -> string,
                                    files: seq<string>)
    requires SaneBoundary(b) && GoodFolder(folder) && MakesDigests(hash)
    requires Distinct(files) && Members(files) == folder.Keys
    requires folder.Keys != {} && forall p :: p in folder ==> Free(b, p)
    ensures Accepts(b, JoinLines(Rows(folder, hash, files)), other, hash) <==> SameDigests(hash, folder, other)
  {
    WrittenParsed(b, folder, hash, files);
    hide MakesDigests, SplitLines, JoinLines, KeyOf, Parsed, SaneBoundary, Distinct, GoodFolder, Rows, IsDigest, Free;
  }

  /** Digests decide equality exactly when no file that differs collides. */
  lemma SameDigestsIff<C>(hash: C -> string, folder: map<string, C>, other: map<string, C>)
    requires SameDigests(hash, folder, other)
    ensures NoCollision(hash, folder, other) <==> other == folder
  {
    if NoCollision(hash, folder, other) {
      assert forall p :: p in other ==> folder[p] == other[p];
    }
  }

  /** A manifest accepts a folder exactly when it is, file for file, the folder
      it was written from, as long as no file that differs keeps its digest. */
  lemma AcceptsOnlyItself<C(!new)>(b: Boundary, folder: map<string, C>, other: map<string, C>, hash: C -> string,
                                   files: seq<string>)
    requires SaneBoundary(b) && GoodFolder(folder) && MakesDigests(hash)
    requires Distinct(files) && Members(files) == folder.Keys
    requires folder.Keys != {} && forall p :: p in folder ==> Free(b, p)
    requires NoCollision(hash, folder, other)
    ensures Accepts(b, JoinLines(Rows(folder, hash, files)), other, hash) <==> other == folder
  {
    AcceptsSameDigests(b, folder, other, hash, files);
    hide Accepts, MakesDigests, SaneBoundary, Distinct, GoodFolder, Free, NoCollision;
    if SameDigests(hash, folder, other) { SameDigestsIff(hash, folder, other); }
  }

  // ---------------------------------------------------------------------
  // When a folder passes its own manifest
  // ---------------------------------------------------------------------

  lemma {:induction false} LinesFree(b: Boundary, s: string)
    ensures forall line :: line in SplitLines(b, s) ==> Free(b, line)
    decreases |s|
  {
    if s != "" {
      var n := FirstBoundary(b, s);
      if n == |s| {
        assert s[..n] == s;
      } else {
        LinesFree(b, s[n + 1..]);
        if n + 1 < |s| { LinesFree(b, s[n + 2..]); }
      }
    }
  }

  lemma {:induction false} ChunksFree(b: Boundary, s: string)
    requires Free(b, s)
    ensures forall c :: c in Split(s, '/') ==> Free(b, c)
  {
    if s != "" {
      ChunksFree(b, s[1..]);
      var rest := Split(s[1..], '/');
      assert rest[0] in rest;
      forall c | c in Split(s, '/') ensures Free(b, c) {
        assert c == "" || c == [s[0]] + rest[0] || c in rest;
      }
    }
  }

  lemma {:induction false} JoinFree(b: Boundary, chunks: seq<string>)
    requires !b('/') && chunks != [] && forall c :: c in chunks ==> Free(b, c)
    ensures Free(b, Join(chunks, '/'))
  {
    assert chunks[0] in chunks;
    if |chunks| > 1 { JoinFree(b, chunks[1..]); }
  }

  lemma KeyFree(b: Boundary, path: string)
    requires !b('/') && Free(b, path) && KeyOf(path).Some?
    ensures Free(b, KeyOf(path).value)
  {
    ChunksFree(b, path);
    JoinFree(b, RealChunks(Split(path, '/')));
  }

  lemma {:induction false} KeysFree(b: Boundary, lines: seq<string>)
    requires !b('/') && Parsed(lines).Some? && forall line :: line in lines ==> Free(b, line)
    ensures forall k :: k in Parsed(lines).value ==> Free(b, k)
    decreases |lines|
  {
    if lines != [] {
      var line := lines[|lines| - 1];
      assert line in lines;
      KeysFree(b, lines[..|lines| - 1]);
      KeyFree(b, line[66..]);
    }
  }

  lemma EmptyUnreadable(b: Boundary)
    requires SaneBoundary(b)
    ensures Parsed(SplitLines(b, JoinLines([]))).None?
  {
    SplitRow(b, "", "");
    assert "" + "\n" + "" == JoinLines([]);
    assert SplitLines(b, JoinLines([])) == [""];
  }

  /** A folder passes the manifest just written for it exactly when it has files
      and no file name holds a line boundary: the writer refuses two of the
      boundaries that the reader knows, and an empty folder gets an empty line. */
  lemma PassesOwnManifestIff<C(!new)>(b: Boundary, folder: map<string, C>, hash: C -> string, files: seq<string>)
    requires SaneBoundary(b) && GoodFolder(folder) && MakesDigests(hash)
    requires Distinct(files) && Members(files) == folder.Keys
    ensures Accepts(b, JoinLines(Rows(folder, hash, files)), folder, hash)
       <==> folder.Keys != {} && forall p :: p in folder ==> Free(b, p)
  {
    var lines := SplitLines(b, JoinLines(Rows(folder, hash, files)));
    if folder.Keys == {} {
      EmptyUnreadable(b);
      NoMembers(files);
    } else if forall p :: p in folder ==> Free(b, p) {
      WrittenParsed(b, folder, hash, files);
    } else {
      LinesFree(b, JoinLines(Rows(folder, hash, files)));
      if Parsed(lines).Some? { KeysFree(b, lines); }
    }
  }

  lemma NoMembers(files: seq<string>)
    ensures files == [] <==> Members(files) == {}
  {
    if files != [] { assert files[0] in Members(files); }
  }

  // ---------------------------------------------------------------------
  // Writing and verifying
  // ---------------------------------------------------------------------

  ghost predicate GoodTree<C>(tree: map<string, Node<C>>) {
    forall p :: p in tree ==> Walked(p)
  }

  /** There are files to sum, and no name of one holds a line boundary. */
  predicate Readable<C>(b: Boundary, tree: map<string, Node<C>>) {
    FilesOf(tree).Keys != {} && forall p :: p in FilesOf(tree) ==> Free(b, p)
  }

  lemma TreeFiles<C>(tree: map<string, Node<C>>)
    requires GoodTree(tree)
    ensures GoodFolder(FilesOf(tree))
  {
    hide Walked;
  }

  /** A written manifest verifies a folder exactly when nothing odd lies in it and
      its files have the names and digests that were written down. */
  lemma WrittenVerifiesIff<C(!new)>(b: Boundary, tree: map<string, Node<C>>, other: map<string, Node<C>>,
                                    hash: C -> string, manifest: string)
    requires SaneBoundary(b) && GoodTree(tree) && MakesDigests(hash)
    requires ManifestOf(tree, hash, manifest) && Readable(b, tree)
    ensures Verified(b, Some(manifest), other, hash)
       <==> NoOther(other) && SameDigests(hash, FilesOf(tree), FilesOf(other))
  {
    TreeFiles(tree);
    var paths :| Lists(paths, FilesOf(tree).Keys, TextLess) && manifest == JoinLines(Rows(FilesOf(tree), hash, paths));
    ListedOnce(paths, FilesOf(tree).Keys);
    hide *;
    ReadableFiles(b, tree);
    AcceptsSameDigests(b, FilesOf(tree), FilesOf(other), hash, paths);
    VerifiedIs(b, manifest, other, hash);
  }

  /** So it verifies only the files it was written for, as long as none that
      differs keeps its digest; and otherwise it verifies other files too. */
  lemma VerifiesOnlyItselfIff<C(!new)>(b: Boundary, tree: map<string, Node<C>>, other: map<string, Node<C>>,
                                       hash: C -> string, manifest: string)
    requires SaneBoundary(b) && GoodTree(tree) && MakesDigests(hash)
    requires ManifestOf(tree, hash, manifest) && Readable(b, tree)
    requires Verified(b, Some(manifest), other, hash)
    ensures FilesOf(other) == FilesOf(tree) <==> NoCollision(hash, FilesOf(tree), FilesOf(other))
  {
    hide *;
    WrittenVerifiesIff(b, tree, other, hash, manifest);
    SameDigestsIff(hash, FilesOf(tree), FilesOf(other));
  }

  lemma ReadableFiles<C>(b: Boundary, tree: map<string, Node<C>>)
    ensures Readable(b, tree) <==> FilesOf(tree).Keys != {} && forall p :: p in FilesOf(tree) ==> Free(b, p)
  {
  }

  lemma VerifiedIs<C>(b: Boundary, manifest: string, tree: map<string, Node<C>>, hash: C -> string)
    ensures Verified(b, Some(manifest), tree, hash) <==> NoOther(tree) && Accepts(b, manifest, FilesOf(tree), hash)
  {
  }

  /** The folder itself verifies exactly when it is readable and holds nothing odd. */
  lemma VerifiesItselfIff<C(!new)>(b: Boundary, tree: map<string, Node<C>>, hash: C -> string, manifest: string)
    requires SaneBoundary(b) && GoodTree(tree) && MakesDigests(hash) && ManifestOf(tree, hash, manifest)
    ensures Verified(b, Some(manifest), tree, hash) <==> NoOther(tree) && Readable(b, tree)
  {
    TreeFiles(tree);
    var paths :| Lists(paths, FilesOf(tree).Keys, TextLess) && manifest == JoinLines(Rows(FilesOf(tree), hash, paths));
    ListedOnce(paths, FilesOf(tree).Keys);
    hide *;
    ReadableFiles(b, tree);
    PassesOwnManifestIff(b, FilesOf(tree), hash, paths);
    VerifiedIs(b, manifest, tree, hash);
  }

  /** A name with any boundary besides the two is written and never verified. */
  method OtherBoundary(b: Boundary, c: char, hash: int -> string) returns (manifest: Option<string>, ok: bool)
    requires SaneBoundary(b) && b(c) && c != '\n' && c != '\r' && MakesDigests(hash)
    ensures manifest.Some? && !ok
  {
    var name := "a" + [c];
    var tree := map[name := File(0)];
    OddName(b, c, tree);
    manifest := Write(tree, hash);
    assert manifest.Some?;
    VerifiesItselfIff(b, tree, hash, manifest.value);
    ok := Verify(b, manifest, tree, hash);
  }

  lemma OddName(b: Boundary, c: char, tree: map<string, Node<int>>)
    requires SaneBoundary(b) && b(c) && c != '\n' && c != '\r' && tree == map["a" + [c] := File(0)]
    ensures GoodTree(tree) && !Readable(b, tree) && forall p :: Summed(tree, p) ==> OneLine(p)
  {
    var name := "a" + [c];
    assert name[1] == c && name[0] == 'a' && |name| == 2;
    assert Plain(name) && Join([name], '/') == name;
    assert Spells([name], name);
    assert MANIFEST[0] == 'S' && DONE[0] == 'D';
    assert Summed(tree, name) && name in FilesOf(tree);
  }
}
