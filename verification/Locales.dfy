/**
 Loading the locale dictionaries: a directory tree read in whatever order the file system
 gives, one merged value per locale.
 */
module Locales {
  import opened Wrappers
  import opened Text
  import opened JsonMerge

  /// A directory entry. A document that cannot be read or parsed has no content.
  datatype Entry = Directory(name: string, entries: seq<Entry>) | Document(name: string, content: Option<Json>)

  const JSON_SUFFIX: string := ".json"

  predicate HasJsonExtension(name: string) {
    |name| > |JSON_SUFFIX| && StripSuffix(name, JSON_SUFFIX).Some?
  }

  function TrimEnd(s: string, suffix: string): string
    requires suffix != ""
    decreases |s|
  {
    match StripSuffix(s, suffix)
    case None => s
    case Some(rest) => TrimEnd(rest, suffix)
  }

  /// The locale of a path is its first component without the extension.
  function LocaleOf(first: string): string {
    TrimEnd(first, JSON_SUFFIX)
  }

  /// A JSON file is one whose name has something before the extension.
  lemma JsonNames(name: string)
    ensures HasJsonExtension(name) <==> exists stem :: stem != "" && name == stem + ".json"
  {
    if HasJsonExtension(name) {
      var stem := name[..|name| - 5];
      assert name == stem + name[|name| - 5..];
    }
    forall stem | stem != "" && name == stem + ".json" ensures HasJsonExtension(name) {
      assert name[|stem|..] == ".json";
    }
  }

  lemma SuffixIsFound(stem: string)
    ensures StripSuffix(stem + ".json", JSON_SUFFIX) == Some(stem)
  {
    assert (stem + ".json")[|stem|..] == ".json";
  }

  function Repeated(s: string, n: nat): string {
    if n == 0 then "" else Repeated(s, n - 1) + s
  }

  lemma OneMoreSuffix(rest: string, locale: string, n: nat)
    requires rest == locale + Repeated(".json", n)
    ensures rest + ".json" == locale + Repeated(".json", n + 1)
  {
    var many := Repeated(".json", n);
    assert (locale + many) + ".json" == locale + (many + ".json");
  }

  lemma NoSuffixLeft(s: string)
    requires StripSuffix(s, JSON_SUFFIX).None?
    ensures forall stem :: s != stem + ".json"
  {
    forall stem ensures s != stem + ".json" {
      SuffixIsFound(stem);
    }
  }

  /// The locale of a path component is the component without any extension left at its end.
  lemma {:induction false} LocaleIsStem(first: string) returns (n: nat)
    ensures first == LocaleOf(first) + Repeated(".json", n)
    ensures forall stem :: LocaleOf(first) != stem + ".json"
    decreases |first|
  {
    hide Repeated;
    match StripSuffix(first, JSON_SUFFIX)
    case None =>
      n := 0;
      NoSuffixLeft(first);
      NoneRepeated(first);
    case Some(rest) =>
      n := LocaleIsStem(rest);
      OneMoreSuffix(rest, LocaleOf(rest), n);
      n := n + 1;
  }

  lemma NoneRepeated(s: string)
    ensures s + Repeated(".json", 0) == s
  {
  }

  /// A document with the locale it belongs to.
  datatype Reading = Reading(locale: string, content: Json)

  /// The documents of a tree in reading order. `first` is the first path component, absent at
  /// the top.
  function Readings(entries: seq<Entry>, first: Option<string>): seq<Reading>
    decreases entries
  {
    if entries == [] then [] else ReadingsOf(entries[0], first) + Readings(entries[1..], first)
  }

  function ReadingsOf(e: Entry, first: Option<string>): seq<Reading>
    decreases e
  {
    var top := if first.Some? then first.value else e.name;
    match e
    case Directory(_, entries) => Readings(entries, Some(top))
    case Document(name, content) =>
      if HasJsonExtension(name) && content.Some? then [Reading(LocaleOf(top), content.value)] else []
  }

  type Dictionary = map<string, Json>

  function Add(locales: Dictionary, r: Reading): Dictionary {
    locales[r.locale := Merge(if r.locale in locales then locales[r.locale] else EMPTY, r.content)]
  }

  function AddAll(locales: Dictionary, readings: seq<Reading>): Dictionary
    decreases |readings|
  {
    if readings == [] then locales else AddAll(Add(locales, readings[0]), readings[1..])
  }

  lemma {:induction false} AddAllJoins(locales: Dictionary, a: seq<Reading>, b: seq<Reading>)
    ensures AddAll(locales, a + b) == AddAll(AddAll(locales, a), b)
    decreases |a|
  {
    if a == [] {
      assert a + b == b;
    } else {
      assert (a + b)[1..] == a[1..] + b;
      AddAllJoins(Add(locales, a[0]), a[1..], b);
    }
  }

  lemma NothingAdded(locales: Dictionary)
    ensures AddAll(locales, []) == locales
  {
  }

  class CodeRegistry {
    var locales: Dictionary

    constructor ()
      ensures locales == map[]
    {
      locales := map[];
    }

    /// load_locales_recursive
    method Load(entries: seq<Entry>, first: Option<string>)
      modifies this
      ensures locales == AddAll(old(locales), Readings(entries, first))
      decreases entries, 1
    {
      hide ReadingsOf, AddAll;
      var n := 0;
      ghost var done: seq<Reading> := [];
      NothingAdded(locales);
      while n < |entries|
        invariant 0 <= n <= |entries|
        invariant locales == AddAll(old(locales), done)
        invariant done + Readings(entries[n..], first) == Readings(entries, first)
      {
        assert entries[n..][0] == entries[n] && entries[n..][1..] == entries[n + 1..];
        ghost var more := ReadingsOf(entries[n], first);
        assert done + (more + Readings(entries[n + 1..], first)) == (done + more) + Readings(entries[n + 1..], first);
        AddAllJoins(old(locales), done, more);
        LoadEntry(entries[n], first);
        done := done + more;
        n := n + 1;
      }
      assert entries[n..] == [] && done + [] == done;
    }

    method LoadEntry(e: Entry, first: Option<string>)
      modifies this
      ensures locales == AddAll(old(locales), ReadingsOf(e, first))
      decreases e
    {
      var top := if first.Some? then first.value else e.name;
      match e {
        case Directory(_, entries) =>
          Load(entries, Some(top));
        case Document(name, content) =>
          if HasJsonExtension(name) && content.Some? {
            var locale := LocaleOf(top);
            var entry := if locale in locales then locales[locale] else EMPTY;
            entry := MergeJson(entry, content.value);
            locales := locales[locale := entry];
            assert [Reading(locale, content.value)][1..] == [];
          }
      }
    }
  }

  // ---------------------------------------------------------------------------
  // Reading order
  // ---------------------------------------------------------------------------

  /// The contents of one locale, in reading order.
  function Of(readings: seq<Reading>, locale: string): seq<Json> {
    if readings == [] then []
    else if readings[0].locale == locale then [readings[0].content] + Of(readings[1..], locale)
    else Of(readings[1..], locale)
  }

  lemma {:induction false} ElementsOf(readings: seq<Reading>, locale: string)
    ensures forall j :: j in Elements(Of(readings, locale)) <==> Reading(locale, j) in readings
  {
    if readings != [] {
      ElementsOf(readings[1..], locale);
      assert readings == [readings[0]] + readings[1..];
    }
  }

  /// Each locale is the merge of its own documents, one after the other.
  lemma {:induction false} LocaleIsMerge(locales: Dictionary, readings: seq<Reading>, locale: string)
    ensures var loaded := AddAll(locales, readings);
            var start := if locale in locales then locales[locale] else EMPTY;
            && (locale in loaded <==> locale in locales || Of(readings, locale) != [])
            && (locale in loaded ==> loaded[locale] == MergeAll(start, Of(readings, locale)))
    decreases |readings|
  {
    hide Merge;
    if readings != [] {
      LocaleIsMerge(Add(locales, readings[0]), readings[1..], locale);
      var rest := Of(readings[1..], locale);
      assert ([readings[0].content] + rest)[1..] == rest;
    }
  }

  /// However the file system orders the tree, the same documents give the same dictionaries,
  /// when within each locale no path is a leaf in one document and bound differently in another.
  lemma LoadingOrderDoesNotMatter(readings: seq<Reading>, others: seq<Reading>)
    requires forall r :: r in readings <==> r in others
    requires forall r, s :: r in readings && s in readings && r.locale == s.locale ==> Agree(r.content, s.content)
    ensures AddAll(map[], readings) == AddAll(map[], others)
  {
    hide Merge, Agree, MergeAll, AddAll;
    forall locale: string
      ensures locale in AddAll(map[], readings) <==> locale in AddAll(map[], others)
      ensures locale in AddAll(map[], readings) ==> AddAll(map[], readings)[locale] == AddAll(map[], others)[locale]
    {
      LocaleIsMerge(map[], readings, locale);
      LocaleIsMerge(map[], others, locale);
      var mine, theirs := Of(readings, locale), Of(others, locale);
      ElementsOf(readings, locale);
      ElementsOf(others, locale);
      assert Elements(mine) == Elements(theirs);
      assert mine != [] ==> mine[0] in Elements(mine);
      assert theirs != [] ==> theirs[0] in Elements(theirs);
      forall a, b | a in Elements(mine) && b in Elements(mine) ensures Agree(a, b) {
        assert Reading(locale, a) in readings && Reading(locale, b) in readings;
      }
      OrderDoesNotMatter(mine, theirs);
    }
  }

  // ---------------------------------------------------------------------------
  // The same tree, listed in another order
  // ---------------------------------------------------------------------------

  /// A document of a tree, under its path.
  datatype File = File(path: seq<string>, content: Option<Json>)

  /// The documents of a tree: what it holds, in no order.
  function Files(entries: seq<Entry>): set<File>
    decreases entries
  {
    if entries == [] then {} else FilesOf(entries[0]) + Files(entries[1..])
  }

  function FilesOf(e: Entry): set<File>
    decreases e
  {
    match e
    case Directory(name, entries) => set f | f in Files(entries) :: File([name] + f.path, f.content)
    case Document(name, content) => {File([name], content)}
  }

  lemma {:induction false} HeldSomewhere(entries: seq<Entry>, f: File)
    ensures f in Files(entries) <==> exists e :: e in entries && f in FilesOf(e)
  {
    hide FilesOf;
    if entries != [] {
      assert entries == [entries[0]] + entries[1..];
      HeldSomewhere(entries[1..], f);
      assert entries[0] in entries;
    }
  }

  /// A tree holds the same documents in whatever order a directory lists its entries, as long
  /// as those hold the same documents themselves.
  lemma ListingsHoldTheSame(a: seq<Entry>, b: seq<Entry>)
    requires forall e :: e in a ==> exists d :: d in b && FilesOf(d) == FilesOf(e)
    requires forall e :: e in b ==> exists d :: d in a && FilesOf(d) == FilesOf(e)
    ensures Files(a) == Files(b)
    ensures forall name :: FilesOf(Directory(name, a)) == FilesOf(Directory(name, b))
  {
    forall f ensures f in Files(a) <==> f in Files(b) {
      HeldSomewhere(a, f);
      HeldSomewhere(b, f);
    }
  }

  /// The loader makes this reading of a document, if any.
  predicate ReadAs(f: File, first: Option<string>, r: Reading) {
    && f.path != [] && HasJsonExtension(f.path[|f.path| - 1]) && f.content == Some(r.content)
    && r.locale == LocaleOf(if first.Some? then first.value else f.path[0])
  }

  lemma ReadBelow(name: string, below: File, first: Option<string>, r: Reading)
    ensures below.path != [] ==>
              (ReadAs(below, Some(if first.Some? then first.value else name), r)
               <==> ReadAs(File([name] + below.path, below.content), first, r))
  {
    assert below.path != [] ==> ([name] + below.path)[|below.path|] == below.path[|below.path| - 1];
  }

  lemma {:induction false} PathsAreNotEmpty(entries: seq<Entry>, f: File)
    requires f in Files(entries)
    ensures f.path != []
  {
    HeldSomewhere(entries, f);
  }

  /// What is read of a tree depends on the documents it holds and their paths alone.
  lemma {:induction false} ReadingsAreOfFiles(entries: seq<Entry>, first: Option<string>, r: Reading)
    ensures r in Readings(entries, first) <==> exists f :: f in Files(entries) && ReadAs(f, first, r)
    decreases entries
  {
    hide ReadAs, FilesOf, ReadingsOf;
    if entries != [] {
      ReadingsAreOfEntry(entries[0], first, r);
      ReadingsAreOfFiles(entries[1..], first, r);
    }
  }

  lemma {:induction false} ReadingsAreOfEntry(e: Entry, first: Option<string>, r: Reading)
    ensures r in ReadingsOf(e, first) <==> exists f :: f in FilesOf(e) && ReadAs(f, first, r)
    decreases e
  {
    match e
    case Directory(name, entries) =>
      hide ReadAs, Files, Readings;
      var top := Some(if first.Some? then first.value else name);
      ReadingsAreOfFiles(entries, top, r);
      forall f | f in Files(entries)
        ensures ReadAs(f, top, r) <==> ReadAs(File([name] + f.path, f.content), first, r)
      {
        PathsAreNotEmpty(entries, f);
        ReadBelow(name, f, first, r);
      }
      forall f | f in Files(entries) ensures File([name] + f.path, f.content) in FilesOf(e) {
      }
    case Document(name, content) =>
      assert ReadAs(File([name], content), first, r) <==> r in ReadingsOf(e, first);
  }

  /// However the file system lists the directories of a tree, loading it gives the same
  /// dictionaries, when within each locale no path is a leaf in one document and bound
  /// differently in another.
  lemma ListingOrderDoesNotMatter(a: seq<Entry>, b: seq<Entry>)
    requires Files(a) == Files(b)
    requires forall r, s :: r in Readings(a, None) && s in Readings(a, None) && r.locale == s.locale ==> Agree(r.content, s.content)
    ensures AddAll(map[], Readings(a, None)) == AddAll(map[], Readings(b, None))
  {
    hide Files, Readings, Agree, AddAll, ReadAs;
    forall r ensures r in Readings(a, None) <==> r in Readings(b, None) {
      ReadingsAreOfFiles(a, None, r);
      ReadingsAreOfFiles(b, None, r);
    }
    LoadingOrderDoesNotMatter(Readings(a, None), Readings(b, None));
  }
}
