/**
 Clone detection over normalised source lines: every ten-line window is indexed by its text,
 and findings are thinned to one per file and bucket of ten line numbers.
 */
module CloneIndex {
  const WINDOW: nat := 10

  /// Line number and normalised text.
  type Lines = seq<(int, string)>

  type Block = seq<string>

  type Files = map<string, Lines>

  type Windows = map<Block, seq<(string, int)>>

  /// A finding: the first line of the window, and the other files that have it.
  datatype Hit = Hit(line: int, others: set<string>)

  type Hits = map<string, seq<Hit>>

  function BlockAt(lines: Lines, idx: nat): Block
    requires idx + WINDOW <= |lines|
  {
    seq(WINDOW, k requires 0 <= k < WINDOW => lines[idx + k].1)
  }

  /// Two windows have one text exactly when their ten lines agree, whatever their numbers.
  lemma SameBlock(a: Lines, m: nat, b: Lines, n: nat)
    requires m + 10 <= |a| && n + 10 <= |b|
    ensures BlockAt(a, m) == BlockAt(b, n) <==> forall k :: m <= k < m + 10 ==> a[k].1 == b[k - m + n].1
  {
    if BlockAt(a, m) == BlockAt(b, n) {
      forall k | m <= k < m + 10 ensures a[k].1 == b[k - m + n].1 {
        assert BlockAt(a, m)[k - m] == BlockAt(b, n)[k - m];
      }
    }
  }

  /// The window of text b starts at index idx, on the given line.
  predicate WindowAt(lines: Lines, idx: nat, b: Block, line: int) {
    idx + WINDOW <= |lines| && BlockAt(lines, idx) == b && lines[idx].0 == line
  }

  /// One of the first n windows has this text and line.
  predicate HasWindow(lines: Lines, n: nat, b: Block, line: int) {
    exists idx :: 0 <= idx < n && WindowAt(lines, idx, b, line)
  }

  predicate Occurs(b: Block, lines: Lines) {
    exists idx :: 0 <= idx < |lines| && idx + WINDOW <= |lines| && BlockAt(lines, idx) == b
  }

  function OtherFiles(files: Files, rel: string, b: Block): set<string> {
    set f | f in files && f != rel && Occurs(b, files[f])
  }

  /// The naive definition: window idx of the file also occurs in another one.
  predicate ClonedAt(files: Files, rel: string, idx: nat)
    requires rel in files
  {
    idx + WINDOW <= |files[rel]| && OtherFiles(files, rel, BlockAt(files[rel], idx)) != {}
  }

  function Bucket(line: int): int { line / WINDOW }

  // ---------------------------------------------------------------------------
  // The index
  // ---------------------------------------------------------------------------

  predicate Listed(windows: Windows, b: Block, rel: string, line: int) {
    b in windows && (rel, line) in windows[b]
  }

  /// The index lists the windows of the files done so far and the first n of one more.
  ghost predicate Indexes(windows: Windows, files: Files, done: set<string>, rel: string, n: nat) {
    forall b, f, line :: Listed(windows, b, f, line) <==>
                           f in files && ((f in done && HasWindow(files[f], |files[f]|, b, line))
                                          || (f == rel && HasWindow(files[f], n, b, line)))
  }

  function AddWindow(windows: Windows, b: Block, rel: string, line: int): Windows {
    windows[b := (if b in windows then windows[b] else []) + [(rel, line)]]
  }

  lemma ListedAfter(windows: Windows, b: Block, rel: string, line: int)
    ensures forall c, f, l :: Listed(AddWindow(windows, b, rel, line), c, f, l) <==>
                                Listed(windows, c, f, l) || (c == b && f == rel && l == line)
  {
  }

  lemma NextWindow(lines: Lines, n: nat)
    requires n + WINDOW <= |lines|
    ensures forall b, line :: HasWindow(lines, n + 1, b, line) <==>
                                HasWindow(lines, n, b, line) || (b == BlockAt(lines, n) && line == lines[n].0)
  {
    forall b, line
      ensures HasWindow(lines, n + 1, b, line) <==>
              HasWindow(lines, n, b, line) || (b == BlockAt(lines, n) && line == lines[n].0)
    {
      assert WindowAt(lines, n, b, line) <==> b == BlockAt(lines, n) && line == lines[n].0;
    }
  }

  method BuildWindows(files: Files) returns (windows: Windows)
    ensures Indexes(windows, files, files.Keys, "", 0)
  {
    windows := map[];
    var left := files.Keys;
    ghost var done: set<string> := {};
    while left != {}
      invariant left <= files.Keys && done == files.Keys - left
      invariant Indexes(windows, files, done, "", 0)
      decreases left
    {
      var rel :| rel in left;
      var norm := files[rel];
      var idx := 0;
      StartFile(windows, files, done, rel);
      while idx + WINDOW <= |norm|
        invariant 0 <= idx && (idx + WINDOW <= |norm| + 1 || idx == 0)
        invariant Indexes(windows, files, done, rel, idx)
        decreases |norm| - idx
      {
        ListedAfter(windows, BlockAt(norm, idx), rel, norm[idx].0);
        NextWindow(norm, idx);
        windows := AddWindow(windows, BlockAt(norm, idx), rel, norm[idx].0);
        idx := idx + 1;
      }
      EndFile(windows, files, done, rel, idx);
      left, done := left - {rel}, done + {rel};
    }
  }

  lemma StartFile(windows: Windows, files: Files, done: set<string>, rel: string)
    requires Indexes(windows, files, done, "", 0)
    ensures Indexes(windows, files, done, rel, 0)
  {
  }

  lemma EndFile(windows: Windows, files: Files, done: set<string>, rel: string, n: nat)
    requires rel in files && Indexes(windows, files, done, rel, n) && n + WINDOW > |files[rel]|
    ensures Indexes(windows, files, done + {rel}, "", 0)
  {
    forall b, line ensures HasWindow(files[rel], n, b, line) <==> HasWindow(files[rel], |files[rel]|, b, line) {
    }
  }

  // ---------------------------------------------------------------------------
  // The findings
  // ---------------------------------------------------------------------------

  function HitsOf(hits: Hits, rel: string): seq<Hit> {
    if rel in hits then hits[rel] else []
  }

  predicate BucketHit(hits: Hits, rel: string, bucket: int) {
    exists h :: h in HitsOf(hits, rel) && Bucket(h.line) == bucket
  }

  /// The recorded spans are the buckets of the findings; no two findings of a file share one.
  ghost predicate Thinned(hits: Hits, recorded: set<(string, int)>) {
    && (forall rel, bucket :: (rel, bucket) in recorded <==> BucketHit(hits, rel, bucket))
    && (forall rel, m, n :: 0 <= m < n < |HitsOf(hits, rel)| ==>
                              Bucket(HitsOf(hits, rel)[m].line) != Bucket(HitsOf(hits, rel)[n].line))
  }

  /// The finding is a window of the file, and names exactly the other files that have it.
  ghost predicate Genuine(files: Files, rel: string, h: Hit) {
    rel in files && exists idx :: 0 <= idx < |files[rel]| && IsClone(files, rel, idx, h)
  }

  ghost predicate IsClone(files: Files, rel: string, idx: nat, h: Hit)
    requires rel in files
  {
    && ClonedAt(files, rel, idx)
    && h == Hit(files[rel][idx].0, OtherFiles(files, rel, BlockAt(files[rel], idx)))
  }

  ghost predicate AllGenuine(files: Files, hits: Hits) {
    forall rel, h :: h in HitsOf(hits, rel) ==> Genuine(files, rel, h)
  }

  function AddHit(hits: Hits, rel: string, h: Hit): Hits {
    hits[rel := HitsOf(hits, rel) + [h]]
  }

  lemma HitAdded(hits: Hits, recorded: set<(string, int)>, rel: string, h: Hit)
    requires Thinned(hits, recorded) && (rel, Bucket(h.line)) !in recorded
    ensures Thinned(AddHit(hits, rel, h), recorded + {(rel, Bucket(h.line))})
  {
    var after := AddHit(hits, rel, h);
    forall r, bucket ensures (r, bucket) in recorded + {(rel, Bucket(h.line))} <==> BucketHit(after, r, bucket) {
      assert r != rel ==> HitsOf(after, r) == HitsOf(hits, r);
      assert h in HitsOf(after, rel);
      assert forall g :: g in HitsOf(hits, rel) ==> g in HitsOf(after, rel);
    }
    hide Bucket;
    forall r, m, n | 0 <= m < n < |HitsOf(after, r)|
      ensures Bucket(HitsOf(after, r)[m].line) != Bucket(HitsOf(after, r)[n].line)
    {
      if r != rel {
        assert HitsOf(after, r) == HitsOf(hits, r);
      } else if n == |HitsOf(hits, rel)| {
        assert HitsOf(hits, rel)[m] in HitsOf(hits, rel);
        assert BucketHit(hits, rel, Bucket(HitsOf(hits, rel)[m].line));
      }
    }
  }

  function FilesOf(locs: seq<(string, int)>): set<string> {
    set loc | loc in locs :: loc.0
  }

  /// The locations listed for a text name exactly the files that have it.
  lemma ListedFiles(windows: Windows, files: Files, b: Block, rel: string)
    requires Indexes(windows, files, files.Keys, "", 0) && b in windows
    ensures FilesOf(windows[b]) - {rel} == OtherFiles(files, rel, b)
  {
    forall f ensures f in FilesOf(windows[b]) <==> f in files && Occurs(b, files[f]) {
      if f in FilesOf(windows[b]) {
        var loc :| loc in windows[b] && loc.0 == f;
        assert Listed(windows, b, f, loc.1);
        var idx :| 0 <= idx < |files[f]| && WindowAt(files[f], idx, b, loc.1);
      }
      if f in files && Occurs(b, files[f]) {
        var idx :| 0 <= idx < |files[f]| && idx + WINDOW <= |files[f]| && BlockAt(files[f], idx) == b;
        assert WindowAt(files[f], idx, b, files[f][idx].0);
        assert Listed(windows, b, f, files[f][idx].0);
        assert (f, files[f][idx].0) in windows[b];
      }
    }
  }

  /// The inner loop: one finding per new bucket of a text that several files have.
  method RecordBlock(files: Files, windows: Windows, b: Block, hits0: Hits, recorded0: set<(string, int)>)
    returns (hits: Hits, recorded: set<(string, int)>)
    requires Indexes(windows, files, files.Keys, "", 0) && b in windows
    requires Thinned(hits0, recorded0) && AllGenuine(files, hits0)
    ensures Thinned(hits, recorded) && AllGenuine(files, hits) && recorded0 <= recorded
    ensures |FilesOf(windows[b])| >= 2 ==> forall loc :: loc in windows[b] ==> (loc.0, Bucket(loc.1)) in recorded
  {
    hide Thinned, Genuine;
    hits, recorded := hits0, recorded0;
    var locs := windows[b];
    var distinct := FilesOf(locs);
    if |distinct| < 2 {
      return;
    }
    var n := 0;
    while n < |locs|
      invariant 0 <= n <= |locs|
      invariant Thinned(hits, recorded) && AllGenuine(files, hits) && recorded0 <= recorded
      invariant forall m :: 0 <= m < n ==> (locs[m].0, Bucket(locs[m].1)) in recorded
    {
      var (rel, line) := locs[n];
      var bucket := Bucket(line);
      if (rel, bucket) !in recorded {
        var h := Hit(line, distinct - {rel});
        assert Genuine(files, rel, h) by {
          assert Listed(windows, b, rel, line);
          ListedClone(windows, files, b, rel, line);
        }
        HitAdded(hits, recorded, rel, h);
        recorded := recorded + {(rel, bucket)};
        hits := AddHit(hits, rel, h);
      }
      n := n + 1;
    }
  }

  lemma ListedClone(windows: Windows, files: Files, b: Block, rel: string, line: int)
    requires Indexes(windows, files, files.Keys, "", 0) && Listed(windows, b, rel, line)
    requires |FilesOf(windows[b])| >= 2
    ensures Genuine(files, rel, Hit(line, FilesOf(windows[b]) - {rel}))
  {
    ListedFiles(windows, files, b, rel);
    assert HasWindow(files[rel], |files[rel]|, b, line);
    var idx :| 0 <= idx < |files[rel]| && WindowAt(files[rel], idx, b, line);
    if FilesOf(windows[b]) - {rel} == {} {
      assert FilesOf(windows[b]) <= {rel};
      SubsetSize(FilesOf(windows[b]), {rel});
    }
    assert IsClone(files, rel, idx, Hit(line, FilesOf(windows[b]) - {rel}));
  }

  lemma {:induction false} SubsetSize<T>(a: set<T>, b: set<T>)
    requires a <= b
    ensures |a| <= |b|
  {
    assert b == a + (b - a);
  }

  /// detect_dry_duplicates: every finding is a clone, each file has at most one per bucket,
  /// and every clone is in the bucket of a finding.
  method DetectDryDuplicates(files: Files) returns (hits: Hits)
    ensures AllGenuine(files, hits)
    ensures forall rel, m, n :: 0 <= m < n < |HitsOf(hits, rel)| ==>
                                  Bucket(HitsOf(hits, rel)[m].line) != Bucket(HitsOf(hits, rel)[n].line)
    ensures forall rel, idx :: rel in files && 0 <= idx < |files[rel]| && ClonedAt(files, rel, idx) ==>
                                 BucketHit(hits, rel, Bucket(files[rel][idx].0))
    ensures forall rel :: rel in files ==>
                            (HitsOf(hits, rel) != [] <==> exists idx :: 0 <= idx < |files[rel]| && ClonedAt(files, rel, idx))
  {
    hide Indexes, Genuine, ClonedAt, BlockAt, Occurs;
    var windows := BuildWindows(files);
    hits := map[];
    var recorded: set<(string, int)> := {};
    var left := windows.Keys;
    while left != {}
      invariant left <= windows.Keys
      invariant Thinned(hits, recorded) && AllGenuine(files, hits)
      invariant forall b :: b in windows && b !in left && |FilesOf(windows[b])| >= 2 ==>
                              forall loc :: loc in windows[b] ==> (loc.0, Bucket(loc.1)) in recorded
      decreases left
    {
      var b :| b in left;
      hits, recorded := RecordBlock(files, windows, b, hits, recorded);
      left := left - {b};
    }
    forall rel, idx | rel in files && 0 <= idx < |files[rel]| && ClonedAt(files, rel, idx)
      ensures BucketHit(hits, rel, Bucket(files[rel][idx].0))
    {
      CloneIsListed(windows, files, rel, idx);
    }
    forall rel | rel in files && HitsOf(hits, rel) != []
      ensures exists idx :: 0 <= idx < |files[rel]| && ClonedAt(files, rel, idx)
    {
      assert HitsOf(hits, rel)[0] in HitsOf(hits, rel);
      GenuineIsClone(files, rel, HitsOf(hits, rel)[0]);
    }
  }

  lemma GenuineIsClone(files: Files, rel: string, h: Hit)
    requires rel in files && Genuine(files, rel, h)
    ensures exists idx :: 0 <= idx < |files[rel]| && ClonedAt(files, rel, idx)
  {
  }

  lemma CloneIsListed(windows: Windows, files: Files, rel: string, idx: nat)
    requires rel in files && idx < |files[rel]| && ClonedAt(files, rel, idx)
    requires Indexes(windows, files, files.Keys, "", 0)
    ensures exists b :: b in windows && |FilesOf(windows[b])| >= 2 && (rel, files[rel][idx].0) in windows[b]
  {
    var b, line := BlockAt(files[rel], idx), files[rel][idx].0;
    assert WindowAt(files[rel], idx, b, line);
    assert HasWindow(files[rel], |files[rel]|, b, line);
    assert Listed(windows, b, rel, line);
    ListedFiles(windows, files, b, rel);
    var other :| other in OtherFiles(files, rel, b);
    assert (rel, line) in windows[b] && rel in FilesOf(windows[b]);
    SubsetSize({rel, other}, FilesOf(windows[b]));
  }
}
