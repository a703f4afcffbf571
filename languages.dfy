/** The capability table of the dispatcher (src/utils/codeExecutor.js:6-18)
    and the two queries over it (:162-173). The table is data: an ordered
    list of entries, in the order the object literal declares its keys,
    looked up by exact, case-sensitive name. */
module Languages {
  import opened Wrappers

  /** What the remote service needs to know about a language: its own name
      for it, the extension of the submitted file and the pinned version. */
  datatype Descriptor = Descriptor(piston: string, ext: string, version: string)

  datatype Entry = Entry(name: string, meta: Descriptor)

  const Table: seq<Entry> := [
    Entry("javascript", Descriptor("javascript", "js", "18.15.0")),
    Entry("python", Descriptor("python", "py", "3.10.0")),
    Entry("java", Descriptor("java", "java", "15.0.2")),
    Entry("cpp", Descriptor("cpp", "cpp", "10.2.0")),
    Entry("c", Descriptor("c", "c", "10.2.0")),
    Entry("csharp", Descriptor("csharp", "cs", "6.12.0")),
    Entry("ruby", Descriptor("ruby", "rb", "3.0.1")),
    Entry("go", Descriptor("go", "go", "1.16.2")),
    Entry("rust", Descriptor("rust", "rs", "1.68.2")),
    Entry("typescript", Descriptor("typescript", "ts", "5.0.3")),
    Entry("php", Descriptor("php", "php", "8.2.3"))
  ]

  /** Names in a table are keys: no two entries share one. */
  predicate DistinctNames(t: seq<Entry>)
  {
    forall i, j :: 0 <= i < j < |t| ==> t[i].name != t[j].name
  }

  /** The descriptor stored under `language` in `t`, if any. */
  function Find(t: seq<Entry>, language: string): (r: Option<Descriptor>)
    ensures r.Some? ==> exists i :: 0 <= i < |t| && t[i] == Entry(language, r.value)
    ensures r.None? ==> forall i :: 0 <= i < |t| ==> t[i].name != language
    decreases |t|
  {
    if t == [] then None
    else if t[0].name == language then Some(t[0].meta)
    else
      var r := Find(t[1..], language);
      assert r.Some? ==> exists i :: 0 <= i < |t| && t[i] == Entry(language, r.value) by {
        if r.Some? {
          var i :| 0 <= i < |t[1..]| && t[1..][i] == Entry(language, r.value);
          assert t[i + 1] == t[1..][i];
        }
      }
      r
  }

  /** In a table with distinct names, every entry is found under its own name. */
  lemma {:induction false} FindEntry(t: seq<Entry>, i: nat)
    requires DistinctNames(t) && i < |t|
    ensures Find(t, t[i].name) == Some(t[i].meta)
    decreases i
  {
    if i > 0 {
      assert t[0].name != t[i].name;
      assert t[1..][i - 1] == t[i];
      FindEntry(t[1..], i - 1);
    }
  }

  /** `languageMap[language]` */
  function Lookup(language: string): (r: Option<Descriptor>)
    ensures r.Some? ==> exists i :: 0 <= i < |Table| && Table[i] == Entry(language, r.value)
    ensures r.None? ==> forall i :: 0 <= i < |Table| ==> Table[i].name != language
  {
    Find(Table, language)
  }

  /** `Object.keys(languageMap)`: the names, in table order. */
  function GetSupportedLanguages(): (r: seq<string>)
    ensures |r| == |Table|
    ensures forall i :: 0 <= i < |r| ==> r[i] == Table[i].name
  {
    seq(|Table|, i requires 0 <= i < |Table| => Table[i].name)
  }

  /** `language in languageMap`: membership among the table's keys. */
  function IsLanguageSupported(language: string): (b: bool)
    ensures b <==> language in GetSupportedLanguages()
    ensures b <==> Lookup(language).Some?
  {
    var names := GetSupportedLanguages();
    assert language in names ==> Lookup(language).Some? by {
      if language in names {
        var i :| 0 <= i < |names| && names[i] == language;
      }
    }
    language in names
  }

  /** The table's names are distinct, as the keys of an object literal are. */
  lemma TableNamesDistinct()
    ensures DistinctNames(Table)
  {
    forall i, j | 0 <= i < j < |Table| ensures Table[i].name != Table[j].name {
      assert |Table[i].name| != |Table[j].name| || Table[i].name[0] != Table[j].name[0] || Table[i].name[1..] != Table[j].name[1..];
    }
  }

  lemma TableVersionsPinned()
    ensures forall i :: 0 <= i < |Table| ==> Table[i].meta.version != ""
  {
  }

  /** The supported languages are exactly these eleven, in this order. */
  lemma SupportedLanguagesListed()
    ensures GetSupportedLanguages() == ["javascript", "python", "java", "cpp", "c", "csharp",
                                        "ruby", "go", "rust", "typescript", "php"]
  {
  }

  /** Every table entry is found under its name, with its own descriptor. */
  lemma LookupFindsEveryEntry(i: nat)
    requires i < |Table|
    ensures Lookup(Table[i].name) == Some(Table[i].meta)
  {
    TableNamesDistinct();
    FindEntry(Table, i);
  }

  /** Every descriptor pins a version, so the `|| "*"` fallback never applies. */
  lemma EveryVersionPinned(language: string)
    requires Lookup(language).Some?
    ensures Lookup(language).value.version != ""
  {
    TableVersionsPinned();
  }

  /** The Java entry, which the Java-only rewrites of the dispatcher go with. */
  lemma JavaDescriptor()
    ensures Lookup("java") == Some(Descriptor("java", "java", "15.0.2"))
  {
  }
}
