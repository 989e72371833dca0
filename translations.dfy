/**
  Page translation: each element names a dotted key, which is looked up
  segment by segment in the chosen language's string table; if any segment
  is missing or empty there, the whole key is looked up again in English.
  Only a string found at the end of the path replaces the element's text.
*/
module Translations {
  import opened Wrappers

  /** A string table: a string, or an object of named entries. */
  datatype Tree = Leaf(text: string) | Node(entries: map<string, Tree>)

  /** The table of every language, by language code. */
  type Table = map<string, Tree>

  /** JavaScript truthiness of a table entry: an object always, a string unless it is empty. */
  predicate Truthy(t: Tree) {
    t.Node? || t.text != ""
  }

  /** `key.split('.')` */
  function Split(key: string): (parts: seq<string>)
    ensures |parts| >= 1
    ensures forall i :: 0 <= i < |parts| ==> '.' !in parts[i]
  {
    if key == [] then [""]
    else
      var rest := Split(key[1..]);
      if key[0] == '.' then [""] + rest else [[key[0]] + rest[0]] + rest[1..]
  }

  /** `parts.join('.')`, the inverse of Split. */
  function Join(parts: seq<string>): string
    requires |parts| >= 1
  {
    if |parts| == 1 then parts[0] else parts[0] + "." + Join(parts[1..])
  }

  /** Splitting loses nothing: joining the segments gives the key back. */
  lemma {:induction false} JoinSplit(key: string)
    ensures Join(Split(key)) == key
  {
    if key != [] {
      var rest := Split(key[1..]);
      JoinSplit(key[1..]);
      if key[0] == '.' {
        assert Join(Split(key)) == "" + "." + Join(rest);
      } else if |rest| == 1 {
        assert Join(Split(key)) == [key[0]] + rest[0];
      } else {
        assert Join(rest) == rest[0] + "." + Join(rest[1..]);
        assert Split(key)[1..] == rest[1..];
        assert Join(Split(key)) == ([key[0]] + rest[0]) + "." + Join(rest[1..]);
      }
    }
  }

  /** A segment without dots glues onto the first segment of what follows it. */
  lemma {:induction false} SplitAfterSegment(a: string, t: string)
    requires '.' !in a
    ensures Split(a + t) == [a + Split(t)[0]] + Split(t)[1..]
  {
    if a != [] {
      assert (a + t)[1..] == a[1..] + t;
      assert (a + t)[0] == a[0];
      SplitAfterSegment(a[1..], t);
      assert [a[0]] + (a[1..] + Split(t)[0]) == a + Split(t)[0];
    } else {
      assert a + t == t && a + Split(t)[0] == Split(t)[0];
      assert Split(t) == [Split(t)[0]] + Split(t)[1..];
    }
  }

  /** Joining segments without dots and splitting again gives the same segments. */
  lemma {:induction false} SplitJoin(parts: seq<string>)
    requires |parts| >= 1
    requires forall i :: 0 <= i < |parts| ==> '.' !in parts[i]
    ensures Split(Join(parts)) == parts
  {
    if |parts| == 1 {
      SplitAfterSegment(parts[0], "");
      assert parts[0] + "" == parts[0];
    } else {
      var tail := Join(parts[1..]);
      SplitJoin(parts[1..]);
      assert Join(parts) == parts[0] + ("." + tail);
      SplitAfterSegment(parts[0], "." + tail);
      assert ("." + tail)[1..] == tail;
      assert Split("." + tail) == [""] + Split(tail);
      assert parts[0] + "" == parts[0];
    }
  }

  /** `translation[k]` together with the truthiness test of the loop. */
  function Child(t: Tree, k: string): (c: Option<Tree>)
    ensures c.Some? ==> Truthy(c.value)
    ensures c.Some? <==> t.Node? && k in t.entries && Truthy(t.entries[k])
    ensures c.Some? ==> c.value == t.entries[k]
  {
    match t
    case Leaf(_) => None
    case Node(entries) => if k in entries && Truthy(entries[k]) then Some(entries[k]) else None
  }

  /**
    The walk of one lookup loop from `start`: None once some segment is
    missing or falsy (or `start` itself is undefined).
  */
  function Lookup(start: Option<Tree>, keys: seq<string>): (r: Option<Tree>)
    ensures r.Some? && keys != [] ==> Truthy(r.value)
    decreases |keys|
  {
    if keys == [] then start
    else
      match start
      case None => None
      case Some(t) => Lookup(Child(t, keys[0]), keys[1..])
  }

  /** One more segment: the loop body applied to the walk so far. */
  lemma {:induction false} LookupSnoc(start: Option<Tree>, keys: seq<string>, k: string)
    ensures Lookup(start, keys + [k]) == if Lookup(start, keys).Some? then Child(Lookup(start, keys).value, k) else None
    decreases |keys|
  {
    if keys == [] {
      assert keys + [k] == [k];
      if start.Some? {
        assert Lookup(Child(start.value, k), []) == Child(start.value, k);
      }
    } else if start.Some? {
      assert (keys + [k])[1..] == keys[1..] + [k];
      LookupSnoc(Child(start.value, keys[0]), keys[1..], k);
    }
  }

  /** Once a prefix of the path fails, the whole path fails. */
  lemma {:induction false} LookupFailsOnward(start: Option<Tree>, keys: seq<string>, m: nat)
    requires m <= |keys|
    requires Lookup(start, keys[..m]) == None
    ensures Lookup(start, keys) == None
    decreases m
  {
    if keys == [] {
      assert keys[..m] == keys;
    } else if start.None? {
    } else if m == 0 {
      assert false;
    } else {
      assert keys[..m][1..] == keys[1..][..m - 1];
      LookupFailsOnward(Child(start.value, keys[0]), keys[1..], m - 1);
    }
  }

  /** `translations[language]`: undefined for a language the table lacks. */
  function LanguageRoot(table: Table, language: string): (r: Option<Tree>)
    ensures r.Some? <==> language in table
    ensures r.Some? ==> r.value == table[language]
  {
    if language in table then Some(table[language]) else None
  }

  /**
    The final value of `translation`: the walk in the chosen language if it
    gets to the end of the key, else the walk in English.
  */
  function Translate(table: Table, language: string, key: string): (r: Option<Tree>)
    ensures r.Some? ==>
      r == Lookup(LanguageRoot(table, language), Split(key)) || r == Lookup(LanguageRoot(table, "en"), Split(key))
    ensures r.None? <==>
      Lookup(LanguageRoot(table, language), Split(key)).None? && Lookup(LanguageRoot(table, "en"), Split(key)).None?
    ensures r.Some? ==> Truthy(r.value)
  {
    var keys := Split(key);
    var found := Lookup(LanguageRoot(table, language), keys);
    if found.Some? then found else Lookup(LanguageRoot(table, "en"), keys)
  }

  /** The text the element gets, if any: only a string at the end of the path is applied. */
  function TextToSet(table: Table, language: string, key: string): (r: Option<string>)
    ensures r.Some? ==> r.value != ""
    ensures r.Some? <==> Translate(table, language, key).Some? && Translate(table, language, key).value.Leaf?
    ensures r.Some? ==> Translate(table, language, key) == Some(Leaf(r.value))
  {
    match Translate(table, language, key)
    case Some(Leaf(s)) => Some(s)
    case _ => None
  }

  /** One element of `translatePage`: the two loops, as written, with their breaks. */
  method TranslateElement(table: Table, language: string, key: string) returns (text: Option<string>)
    ensures text == TextToSet(table, language, key)
  {
    var keys := Split(key);
    var translation := LanguageRoot(table, language);
    var i := 0;
    while i < |keys|
      invariant 0 <= i <= |keys|
      invariant translation == Lookup(LanguageRoot(table, language), keys[..i])
      invariant i > 0 ==> translation.Some?
    {
      var next := if translation.Some? then Child(translation.value, keys[i]) else None;
      LookupSnoc(LanguageRoot(table, language), keys[..i], keys[i]);
      assert keys[..i + 1] == keys[..i] + [keys[i]];
      if next.Some? {
        translation := next;
        i := i + 1;
      } else {
        LookupFailsOnward(LanguageRoot(table, language), keys, i + 1);
        translation := LanguageRoot(table, "en");
        var j := 0;
        while j < |keys|
          invariant 0 <= j <= |keys|
          invariant translation == Lookup(LanguageRoot(table, "en"), keys[..j])
          invariant j > 0 ==> translation.Some?
        {
          var next2 := if translation.Some? then Child(translation.value, keys[j]) else None;
          LookupSnoc(LanguageRoot(table, "en"), keys[..j], keys[j]);
          assert keys[..j + 1] == keys[..j] + [keys[j]];
          if next2.Some? {
            translation := next2;
            j := j + 1;
          } else {
            LookupFailsOnward(LanguageRoot(table, "en"), keys, j + 1);
            translation := None;
            break;
          }
        }
        assert keys[..|keys|] == keys;
        assert translation == Lookup(LanguageRoot(table, "en"), keys);
        break;
      }
    }
    assert keys[..|keys|] == keys;
    assert translation == Translate(table, language, key);
    if translation.Some? && translation.value.Leaf? {
      text := Some(translation.value.text);
    } else {
      text := None;
    }
  }

  /**
    `translatePage(language)` over the page's elements: `keys[i]` is the
    data-i18n key of element i and `texts[i]` its text content.
  */
  method TranslatePage(table: Table, language: string, keys: seq<string>, texts: array<string>)
    requires texts.Length == |keys|
    modifies texts
    ensures forall i :: 0 <= i < texts.Length ==> texts[i] == TextToSet(table, language, keys[i]).GetOr(old(texts[i]))
  {
    var n := 0;
    while n < texts.Length
      invariant 0 <= n <= texts.Length
      invariant forall i :: 0 <= i < n ==> texts[i] == TextToSet(table, language, keys[i]).GetOr(old(texts[i]))
      invariant forall i :: n <= i < texts.Length ==> texts[i] == old(texts[i])
    {
      var t := TranslateElement(table, language, keys[n]);
      if t.Some? {
        texts[n] := t.value;
      }
      n := n + 1;
    }
  }

  /** A path that fails in the chosen language is answered by English alone. */
  lemma FallbackToEnglish(table: Table, language: string, key: string)
    requires Lookup(LanguageRoot(table, language), Split(key)).None?
    ensures Translate(table, language, key) == Lookup(LanguageRoot(table, "en"), Split(key))
  {
  }

  /** A path that reaches anything in the chosen language, a subtree included, keeps it: no fallback. */
  lemma FoundNeedsNoFallback(table: Table, language: string, key: string)
    requires Lookup(LanguageRoot(table, language), Split(key)).Some?
    ensures Translate(table, language, key) == Lookup(LanguageRoot(table, language), Split(key))
    ensures Lookup(LanguageRoot(table, language), Split(key)).value.Node? ==> TextToSet(table, language, key) == None
  {
  }

  /** For English the fallback never changes the answer. */
  lemma EnglishIsSingleLookup(table: Table, key: string)
    ensures Translate(table, "en", key) == Lookup(LanguageRoot(table, "en"), Split(key))
  {
  }

  /** A language the table lacks is English for every key. */
  lemma UnknownLanguageIsEnglish(table: Table, language: string, key: string)
    requires language !in table
    ensures Translate(table, language, key) == Translate(table, "en", key)
  {
    var keys := Split(key);
    assert keys == [keys[0]] + keys[1..];
  }

  // A few entries of the real table, enough to exercise the lookup.

  const English: Tree := Node(map[
    "title" := Leaf("Remote Guidance Service at Orlando Parks"),
    "nav" := Node(map["services" := Leaf("Services"), "plans" := Leaf("Plans")]),
    "services" := Node(map[
      "title1" := Leaf("How"),
      "title2" := Leaf("Remote Guidance"),
      "title3" := Leaf("Works"),
      "service1" := Node(map["title" := Leaf("Personalized Planning")])])])

  const Portuguese: Tree := Node(map[
    "title" := Leaf("Serviço de Guiamento Remoto nos Parques de Orlando"),
    "nav" := Node(map["services" := Leaf("Serviços"), "plans" := Leaf("Planos")]),
    "services" := Node(map[
      "title1" := Leaf("Como Funciona o"),
      "title2" := Leaf("Guiamento Remoto"),
      "title3" := Leaf(""),
      "service1" := Node(map["title" := Leaf("Planejamento Personalizado")])])])

  const Sample: Table := map["en" := English, "pt" := Portuguese]

  /** A two-segment key splits into its two segments. */
  lemma SplitTwoSegments(a: string, b: string)
    requires '.' !in a && '.' !in b
    ensures Split(a + "." + b) == [a, b]
  {
    var keys := [a, b];
    assert '.' !in keys[0] && '.' !in keys[1];
    SplitJoin(keys);
    assert Join(keys) == a + "." + b;
  }

  lemma SampleRoots()
    ensures LanguageRoot(Sample, "en") == Some(English)
    ensures LanguageRoot(Sample, "pt") == Some(Portuguese)
    ensures LanguageRoot(Sample, "de") == None
  {
  }

  /** The empty Portuguese `services.title3` counts as missing, so the English "Works" is used. */
  lemma EmptyStringFallsBack()
    ensures TextToSet(Sample, "pt", "services.title3") == Some("Works")
  {
    EmptyTitleFallsBack(Sample, "services.title3");
  }

  lemma EmptyTitleFallsBack(table: Table, key: string)
    requires table == Sample && key == "services.title3"
    ensures TextToSet(table, "pt", key) == Some("Works")
  {
    var keys := ["services", "title3"];
    assert key == "services" + "." + "title3";
    SplitTwoSegments("services", "title3");
    SampleRoots();
    var ptServices := Portuguese.entries["services"];
    assert Child(Portuguese, "services") == Some(ptServices);
    assert Child(ptServices, "title3") == None;
    assert Lookup(Some(ptServices), keys[1..]) == None;
    var enServices := English.entries["services"];
    assert Child(English, "services") == Some(enServices);
    assert Child(enServices, "title3") == Some(Leaf("Works"));
    assert Lookup(Some(enServices), keys[1..]) == Some(Leaf("Works"));
  }

  /** A present Portuguese string is used as it is. */
  lemma PortugueseStringUsed()
    ensures TextToSet(Sample, "pt", "nav.plans") == Some("Planos")
  {
    PresentStringUsed(Sample, "nav.plans");
  }

  lemma PresentStringUsed(table: Table, key: string)
    requires table == Sample && key == "nav.plans"
    ensures TextToSet(table, "pt", key) == Some("Planos")
  {
    var keys := ["nav", "plans"];
    assert key == "nav" + "." + "plans";
    SplitTwoSegments("nav", "plans");
    SampleRoots();
    var ptNav := Portuguese.entries["nav"];
    assert Child(Portuguese, "nav") == Some(ptNav);
    assert Child(ptNav, "plans") == Some(Leaf("Planos"));
    assert Lookup(Some(ptNav), keys[1..]) == Some(Leaf("Planos"));
  }

  /** A key that ends at a subtree leaves the text alone, without falling back. */
  lemma SubtreeLeavesText()
    ensures Translate(Sample, "pt", "services") == Some(Portuguese.entries["services"])
    ensures TextToSet(Sample, "pt", "services") == None
  {
    SubtreeFound(Sample, "services");
  }

  lemma SubtreeFound(table: Table, key: string)
    requires table == Sample && key == "services"
    ensures Translate(table, "pt", key) == Some(Portuguese.entries["services"])
    ensures TextToSet(table, "pt", key) == None
  {
    SplitJoin(["services"]);
    assert key == Join(["services"]);
    SampleRoots();
    var ptServices := Portuguese.entries["services"];
    assert Child(Portuguese, "services") == Some(ptServices);
    assert Lookup(Some(ptServices), []) == Some(ptServices);
  }

  /** A key missing in both languages gives nothing, and the text stays. */
  lemma MissingEverywhere()
    ensures Translate(Sample, "pt", "nav.home") == None
  {
    MissingInBoth(Sample, "nav.home");
  }

  lemma MissingInBoth(table: Table, key: string)
    requires table == Sample && key == "nav.home"
    ensures Translate(table, "pt", key) == None
  {
    var keys := ["nav", "home"];
    assert key == "nav" + "." + "home";
    SplitTwoSegments("nav", "home");
    SampleRoots();
    var ptNav, enNav := Portuguese.entries["nav"], English.entries["nav"];
    assert Child(Portuguese, "nav") == Some(ptNav) && Child(ptNav, "home") == None;
    assert Lookup(Some(ptNav), keys[1..]) == None;
    assert Child(English, "nav") == Some(enNav) && Child(enNav, "home") == None;
    assert Lookup(Some(enNav), keys[1..]) == None;
  }

  /** A language without a table reads English. */
  lemma GermanReadsEnglish()
    ensures TextToSet(Sample, "de", "nav.services") == Some("Services")
  {
    AbsentLanguageReadsEnglish(Sample, "nav.services");
  }

  lemma AbsentLanguageReadsEnglish(table: Table, key: string)
    requires table == Sample && key == "nav.services"
    ensures TextToSet(table, "de", key) == Some("Services")
  {
    var keys := ["nav", "services"];
    assert key == "nav" + "." + "services";
    SplitTwoSegments("nav", "services");
    SampleRoots();
    var enNav := English.entries["nav"];
    assert Child(English, "nav") == Some(enNav);
    assert Child(enNav, "services") == Some(Leaf("Services"));
    assert Lookup(Some(enNav), keys[1..]) == Some(Leaf("Services"));
  }
}
