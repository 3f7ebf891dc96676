/**
 Deep merge of locale files that are read in no particular order.
 */
module JsonMerge {
  /// A JSON value; everything but objects is opaque to the merge.
  datatype Json = Null | Scalar(id: int) | Object(fields: map<string, Json>)

  type Path = seq<string>

  function FieldOrNull(j: Json, k: string): Json {
    if j.Object? && k in j.fields then j.fields[k] else Null
  }

  function Merge(a: Json, b: Json): Json
    decreases b
  {
    if a.Object? && b.Object? then
      Object(map k | k in a.fields.Keys + b.fields.Keys ::
               if k in b.fields then Merge(FieldOrNull(a, k), b.fields[k]) else a.fields[k])
    else b
  }

  /// merge_json: the entries of b are taken in any order.
  method MergeJson(a: Json, b: Json) returns (r: Json)
    ensures r == Merge(a, b)
    decreases b
  {
    if a.Object? && b.Object? {
      var fields := a.fields;
      var left := b.fields.Keys;
      while left != {}
        invariant left <= b.fields.Keys
        invariant fields.Keys == a.fields.Keys + (b.fields.Keys - left)
        invariant forall k :: k in fields ==>
                                fields[k] == if k in b.fields && k !in left then Merge(FieldOrNull(a, k), b.fields[k])
                                             else a.fields[k]
        decreases left
      {
        var k :| k in left;
        var value := MergeJson(if k in fields then fields[k] else Null, b.fields[k]);
        fields := fields[k := value];
        left := left - {k};
      }
      r := Object(fields);
    } else {
      r := b;
    }
  }

  // ---------------------------------------------------------------------------
  // What a value says at a path
  // ---------------------------------------------------------------------------

  datatype Kind = Absent | Branch | Leaf(value: Json)

  function KindAt(j: Json, p: Path): Kind
    decreases |p|
  {
    if p == [] then if j.Object? then Branch else Leaf(j)
    else if j.Object? && p[0] in j.fields then KindAt(j.fields[p[0]], p[1..])
    else Absent
  }

  /// Going down p, the objects of j run out by a missing key, not by a leaf.
  predicate Open(j: Json, p: Path)
    decreases |p|
  {
    p != [] && j.Object? && (p[0] in j.fields ==> Open(j.fields[p[0]], p[1..]))
  }

  /// The merge in full: what the later value binds wins; a path it leaves open keeps what the
  /// earlier one says; below a leaf of the later value nothing is left.
  lemma {:induction false} MergeAt(a: Json, b: Json, p: Path)
    ensures KindAt(Merge(a, b), p) ==
            if KindAt(b, p) != Absent then KindAt(b, p) else if Open(b, p) then KindAt(a, p) else Absent
    decreases |p|
  {
    if p != [] && a.Object? && b.Object? && p[0] in b.fields {
      MergeAt(FieldOrNull(a, p[0]), b.fields[p[0]], p[1..]);
    }
  }

  /// A value is what it says at its paths.
  lemma {:induction false} SameAtAllPaths(a: Json, b: Json)
    requires forall p :: KindAt(a, p) == KindAt(b, p)
    ensures a == b
    decreases a
  {
    assert KindAt(a, []) == KindAt(b, []);
    if a.Object? {
      forall k: string ensures k in a.fields <==> k in b.fields {
        assert KindAt(a, [k]) == KindAt(b, [k]);
        KindBelow(a, k, []);
        KindBelow(b, k, []);
      }
      forall k | k in a.fields ensures a.fields[k] == b.fields[k] {
        forall p: Path ensures KindAt(a.fields[k], p) == KindAt(b.fields[k], p) {
          KindBelow(a, k, p);
          KindBelow(b, k, p);
          assert KindAt(a, [k] + p) == KindAt(b, [k] + p);
        }
        SameAtAllPaths(a.fields[k], b.fields[k]);
      }
      assert a.fields == b.fields;
    }
  }

  lemma KindBelow(j: Json, k: string, p: Path)
    ensures KindAt(j, [k] + p) == if j.Object? && k in j.fields then KindAt(j.fields[k], p) else Absent
  {
    assert ([k] + p)[1..] == p;
  }

  // ---------------------------------------------------------------------------
  // Order of two
  // ---------------------------------------------------------------------------

  /// No path is a leaf in one value and bound to something else in the other.
  ghost predicate Agree(a: Json, b: Json) {
    forall p :: KindAt(a, p) != Absent && KindAt(b, p) != Absent ==> KindAt(a, p) == KindAt(b, p)
  }

  lemma {:induction false} AgreementOpens(a: Json, b: Json, p: Path)
    requires Agree(a, b) && KindAt(a, p) != Absent && KindAt(b, p) == Absent
    ensures Open(b, p)
    decreases |p|
  {
    var k, rest := p[0], p[1..];
    assert KindAt(a, []) == Branch;
    assert KindAt(b, []) == Branch;
    if k in b.fields {
      forall q: Path
        ensures KindAt(a.fields[k], q) != Absent && KindAt(b.fields[k], q) != Absent ==> KindAt(a.fields[k], q) == KindAt(b.fields[k], q)
      {
        KindBelow(a, k, q);
        KindBelow(b, k, q);
      }
      AgreementOpens(a.fields[k], b.fields[k], rest);
    }
  }

  /// Where two values agree, their merge says what either of them says.
  lemma MergeOfAgreeing(a: Json, b: Json, p: Path)
    requires Agree(a, b)
    ensures KindAt(Merge(a, b), p) == if KindAt(b, p) != Absent then KindAt(b, p) else KindAt(a, p)
  {
    MergeAt(a, b, p);
    if KindAt(a, p) != Absent && KindAt(b, p) == Absent {
      AgreementOpens(a, b, p);
    }
  }

  /// Two files may be read in either order exactly when no path is a leaf in one and bound
  /// differently in the other.
  lemma OrderOfTwo(a: Json, b: Json)
    ensures Merge(a, b) == Merge(b, a) <==> Agree(a, b)
  {
    if Agree(a, b) {
      forall p ensures KindAt(Merge(a, b), p) == KindAt(Merge(b, a), p) {
        MergeOfAgreeing(a, b, p);
        MergeOfAgreeing(b, a, p);
      }
      SameAtAllPaths(Merge(a, b), Merge(b, a));
    }
    if Merge(a, b) == Merge(b, a) {
      forall p | KindAt(a, p) != Absent && KindAt(b, p) != Absent ensures KindAt(a, p) == KindAt(b, p) {
        MergeAt(a, b, p);
        MergeAt(b, a, p);
      }
    }
  }

  // ---------------------------------------------------------------------------
  // Order of many
  // ---------------------------------------------------------------------------

  function MergeAll(start: Json, files: seq<Json>): Json
    decreases |files|
  {
    if files == [] then start else MergeAll(Merge(start, files[0]), files[1..])
  }

  ghost predicate AllAgree(files: set<Json>) {
    forall a, b :: a in files && b in files ==> Agree(a, b)
  }

  /// j says at each path what the files say, and nothing else.
  ghost predicate Covers(j: Json, files: set<Json>) {
    && (forall p, f :: f in files && KindAt(f, p) != Absent ==> KindAt(j, p) == KindAt(f, p))
    && (forall p :: KindAt(j, p) != Absent ==> exists f :: f in files && KindAt(f, p) != Absent)
  }

  lemma CoverIsUnique(i: Json, j: Json, files: set<Json>)
    requires Covers(i, files) && Covers(j, files)
    ensures i == j
  {
    forall p ensures KindAt(i, p) == KindAt(j, p) {
      if f :| f in files && KindAt(f, p) != Absent {
      }
    }
    SameAtAllPaths(i, j);
  }

  lemma CoverGrows(j: Json, files: set<Json>, f: Json)
    requires Covers(j, files) && AllAgree(files + {f})
    ensures Covers(Merge(j, f), files + {f})
  {
    forall p ensures KindAt(j, p) != Absent && KindAt(f, p) != Absent ==> KindAt(j, p) == KindAt(f, p) {
      if KindAt(j, p) != Absent {
        var g :| g in files && KindAt(g, p) != Absent;
        assert Agree(g, f);
      }
    }
    assert Agree(j, f);
    forall p ensures KindAt(Merge(j, f), p) == if KindAt(f, p) != Absent then KindAt(f, p) else KindAt(j, p) {
      MergeOfAgreeing(j, f, p);
    }
  }

  function Elements(files: seq<Json>): set<Json> {
    set f | f in files
  }

  lemma {:induction false} MergeAllCovers(start: Json, files: seq<Json>, before: set<Json>)
    requires Covers(start, before) && AllAgree(before + Elements(files))
    ensures Covers(MergeAll(start, files), before + Elements(files))
    decreases |files|
  {
    if files == [] {
      assert before + Elements(files) == before;
    } else {
      assert before + Elements(files) == before + {files[0]} + Elements(files[1..]);
      CoverGrows(start, before, files[0]);
      MergeAllCovers(Merge(start, files[0]), files[1..], before + {files[0]});
    }
  }

  const EMPTY: Json := Object(map[])

  lemma MergeIntoEmpty(f: Json)
    ensures Merge(EMPTY, f) == f
  {
    forall p ensures KindAt(Merge(EMPTY, f), p) == KindAt(f, p) {
      MergeAt(EMPTY, f, p);
    }
    SameAtAllPaths(Merge(EMPTY, f), f);
  }

  /// Any reading order, even with repetitions, gives the same locale when no path is a leaf in
  /// one file and bound differently in another.
  lemma OrderDoesNotMatter(files: seq<Json>, others: seq<Json>)
    requires Elements(files) == Elements(others) && AllAgree(Elements(files))
    ensures MergeAll(EMPTY, files) == MergeAll(EMPTY, others)
  {
    NoElements(files);
    NoElements(others);
    if files != [] {
      FromFirst(files);
      FromFirst(others);
      CoverIsUnique(MergeAll(EMPTY, files), MergeAll(EMPTY, others), Elements(files));
    }
  }

  lemma NoElements(files: seq<Json>)
    ensures Elements(files) == {} <==> files == []
  {
    assert files != [] ==> files[0] in Elements(files);
  }

  lemma {:induction false} MergeAllJoins(start: Json, files: seq<Json>, more: seq<Json>)
    ensures MergeAll(start, files + more) == MergeAll(MergeAll(start, files), more)
    decreases |files|
  {
    if files == [] {
      assert files + more == more;
    } else {
      assert (files + more)[1..] == files[1..] + more;
      MergeAllJoins(Merge(start, files[0]), files[1..], more);
    }
  }

  /// The condition cannot be weakened: two files that disagree give different locales when
  /// they are read last, in one order and in the other.
  lemma DisagreementShows(files: seq<Json>, a: Json, b: Json)
    requires !Agree(a, b)
    ensures MergeAll(EMPTY, files + [a, b]) != MergeAll(EMPTY, files + [b, a])
  {
    var start := MergeAll(EMPTY, files);
    MergeAllJoins(EMPTY, files, [a, b]);
    MergeAllJoins(EMPTY, files, [b, a]);
    MergeTwo(start, a, b);
    MergeTwo(start, b, a);
    var p :| KindAt(a, p) != Absent && KindAt(b, p) != Absent && KindAt(a, p) != KindAt(b, p);
    MergeAt(Merge(start, a), b, p);
    MergeAt(Merge(start, b), a, p);
  }

  lemma MergeTwo(start: Json, a: Json, b: Json)
    ensures MergeAll(start, [a, b]) == Merge(Merge(start, a), b)
  {
    assert [a, b][1..] == [b] && [b][1..] == [];
    assert MergeAll(start, [a, b]) == MergeAll(Merge(start, a), [b]);
    assert MergeAll(Merge(start, a), [b]) == MergeAll(Merge(Merge(start, a), b), []);
  }

  lemma FromFirst(files: seq<Json>)
    requires files != [] && AllAgree(Elements(files))
    ensures Covers(MergeAll(EMPTY, files), Elements(files))
  {
    MergeIntoEmpty(files[0]);
    assert Covers(files[0], {files[0]});
    assert {files[0]} + Elements(files[1..]) == Elements(files);
    MergeAllCovers(files[0], files[1..], {files[0]});
  }
}
