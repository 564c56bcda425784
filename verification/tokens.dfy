/** The token normalisation of the graph store (graph_store.py): node labels from entity
    types, relationship types, and property keys. Python's Unicode-aware `str.title`,
    `str.upper` and `str.isalnum` are taken on ASCII. */
module Tokens {
  import opened Text
  import opened Seqs
  import opened PyJson

  // ---------------------------------------------------------------------------
  // str.title()

  /** What `str.title()` puts at position `i`: a letter is upper-cased when it starts the
      text or follows a non-letter and lower-cased otherwise; other characters stay. */
  function TitleChar(s: string, i: nat): char
    requires i < |s|
  {
    if !IsLetter(s[i]) then s[i]
    else if i == 0 || !IsLetter(s[i - 1]) then ToUpper(s[i])
    else ToLower(s[i])
  }

  /** Left-to-right title-casing, given whether the character before `s` was a letter. */
  function TitleAfter(s: string, afterLetter: bool): (r: string)
    ensures |r| == |s|
    ensures |s| > 0 ==> r[0] == if !IsLetter(s[0]) then s[0] else if afterLetter then ToLower(s[0]) else ToUpper(s[0])
    ensures forall i :: 0 < i < |s| ==> r[i] == TitleChar(s, i)
  {
    if |s| == 0 then ""
    else
      var c := if !IsLetter(s[0]) then s[0] else if afterLetter then ToLower(s[0]) else ToUpper(s[0]);
      var rest := TitleAfter(s[1..], IsLetter(s[0]));
      assert forall i :: 1 < i < |s| ==> TitleChar(s[1..], i - 1) == TitleChar(s, i);
      [c] + rest
  }

  /** `str.title()` on ASCII. */
  function Title(s: string): (r: string)
    ensures |r| == |s|
    ensures forall i :: 0 <= i < |s| ==> r[i] == TitleChar(s, i)
  {
    TitleAfter(s, false)
  }

  // ---------------------------------------------------------------------------
  // Node labels: "".join(c for c in typ.title() if c.isalnum()) or "Entity"

  predicate HasAlnum(s: string) {
    exists i :: 0 <= i < |s| && IsAlnum(s[i])
  }

  /** The label `merge_entity` gives a node of type `typ`: the alphanumeric characters of
      the title-cased type, each cased by its position, never starting with a lower-case
      letter; a type without any falls back to "Entity". */
  function NodeLabel(typ: string): (r: string)
    ensures |r| > 0 && forall i :: 0 <= i < |r| ==> IsAlnum(r[i])
    ensures !IsLower(r[0])
    ensures !HasAlnum(typ) ==> r == "Entity"
    ensures HasAlnum(typ) ==> Lower(r) == Lower(Filter(typ, IsAlnum))
    ensures HasAlnum(typ) ==> r == Filter(seq(|typ|, j requires 0 <= j < |typ| => TitleChar(typ, j)), IsAlnum)
  {
    var kept := Filter(Title(typ), IsAlnum);
    assert Title(typ) == seq(|typ|, j requires 0 <= j < |typ| => TitleChar(typ, j));
    TitleKeepsAlnum(typ);
    if kept == "" then "Entity"
    else
      FirstKeptNotLower(typ);
      TitleSameUpToCase(typ);
      kept
  }

  /** Title-casing keeps every character's being alphanumeric, so something survives the
      filter exactly when the type has an alphanumeric character. */
  lemma TitleKeepsAlnum(typ: string)
    ensures Filter(Title(typ), IsAlnum) != "" <==> HasAlnum(typ)
  {
    var t := Title(typ);
    FilterEmpty(t, IsAlnum);
    assert forall i :: 0 <= i < |t| ==> (IsAlnum(t[i]) <==> IsAlnum(typ[i]));
  }

  /** The first character kept from a title-cased text is not a lower-case letter. */
  lemma FirstKeptNotLower(typ: string)
    requires Filter(Title(typ), IsAlnum) != ""
    ensures !IsLower(Filter(Title(typ), IsAlnum)[0])
  {
    var t := Title(typ);
    var p := FirstAlnum(t);
    FilterEmpty(t, IsAlnum);
    assert p < |t|;
    FilterStartsAtFirst(t, p);
    assert t[p] == TitleChar(typ, p);
    assert IsAlnum(typ[p]);
    if p > 0 {
      assert t[p - 1] == TitleChar(typ, p - 1);
      assert !IsLetter(typ[p - 1]);
    }
  }

  /** Position of the first alphanumeric character of `s`, or `|s|`. */
  function FirstAlnum(s: string): (p: nat)
    ensures p <= |s|
    ensures forall j :: 0 <= j < p ==> !IsAlnum(s[j])
    ensures p < |s| ==> IsAlnum(s[p])
  {
    if |s| == 0 || IsAlnum(s[0]) then 0 else 1 + FirstAlnum(s[1..])
  }

  /** Filtering starts with the first character that is kept. */
  lemma {:induction false} FilterStartsAtFirst(s: string, p: nat)
    requires p < |s| && IsAlnum(s[p])
    requires forall j :: 0 <= j < p ==> !IsAlnum(s[j])
    ensures Filter(s, IsAlnum) != "" && Filter(s, IsAlnum)[0] == s[p]
  {
    if p > 0 {
      FilterStartsAtFirst(s[1..], p - 1);
    }
  }

  /** Title-casing changes only letter case, so filtering to alphanumerics afterwards agrees
      with filtering first, up to case. */
  lemma TitleSameUpToCase(typ: string)
    ensures Lower(Filter(Title(typ), IsAlnum)) == Lower(Filter(typ, IsAlnum))
  {
    var t := Title(typ);
    forall i | 0 <= i < |typ| ensures ToLower(t[i]) == ToLower(typ[i]) && (IsAlnum(t[i]) <==> IsAlnum(typ[i])) {
    }
    FilterSameUpToCase(t, typ);
  }

  /** Texts equal up to case, whose characters agree on being alphanumeric, keep the same
      characters up to case. */
  lemma {:induction false} FilterSameUpToCase(a: string, b: string)
    requires |a| == |b|
    requires forall i :: 0 <= i < |a| ==> ToLower(a[i]) == ToLower(b[i]) && (IsAlnum(a[i]) <==> IsAlnum(b[i]))
    ensures Lower(Filter(a, IsAlnum)) == Lower(Filter(b, IsAlnum))
  {
    if |a| > 0 {
      FilterSameUpToCase(a[1..], b[1..]);
      var fa := Filter(a[1..], IsAlnum);
      var fb := Filter(b[1..], IsAlnum);
      if IsAlnum(a[0]) {
        assert Lower([a[0]] + fa) == [ToLower(a[0])] + Lower(fa);
        assert Lower([b[0]] + fb) == [ToLower(b[0])] + Lower(fb);
      }
    }
  }

  /** Title-casing a concatenation continues from the last character of the first part. */
  lemma {:induction false} TitleAfterConcat(a: string, b: string, afterLetter: bool)
    ensures TitleAfter(a + b, afterLetter)
         == TitleAfter(a, afterLetter) + TitleAfter(b, if |a| == 0 then afterLetter else IsLetter(a[|a| - 1]))
  {
    if |a| > 0 {
      assert (a + b)[1..] == a[1..] + b;
      TitleAfterConcat(a[1..], b, IsLetter(a[0]));
    } else {
      assert a + b == b;
    }
  }

  /** Once the title-cased type and what survives filtering are known, so is the label. */
  lemma {:induction false} NodeLabelFromParts(typ: string, titled: string, kept: string)
    requires Title(typ) == titled && Filter(titled, IsAlnum) == kept && kept != ""
    ensures NodeLabel(typ) == kept
  {
  }

  /** Title-casing lower-cases an all-capitals word after its first letter. */
  lemma NodeLabelOfAcronym()
    ensures NodeLabel("NPC") == "Npc"
  {
    assert TitleAfter("NPC", false) == "Npc";
    FilterKeepsAll("Npc", IsAlnum);
    NodeLabelFromParts("NPC", "Npc", "Npc");
  }

  /** Each word of a space-separated type gets its initial capitalised. */
  lemma TitleOfWords()
    ensures Title("dark elf") == "Dark Elf"
  {
    assert "dark elf" == "dark" + (" " + "elf");
    TitleAfterConcat("dark", " " + "elf", false);
    TitleAfterConcat(" ", "elf", true);
    assert TitleAfter("dark", false) == "Dark";
    assert TitleAfter(" ", true) == " ";
    assert TitleAfter("elf", false) == "Elf";
    assert "Dark" + (" " + "Elf") == "Dark Elf";
  }

  /** A word made only of letters passes the filter whole. */
  lemma {:induction false} FilterOfLetters(w: string)
    requires forall i :: 0 <= i < |w| ==> IsLetter(w[i])
    ensures Filter(w, IsAlnum) == w
  {
    FilterKeepsAll(w, IsAlnum);
  }

  /** A leading space is dropped by the filter. */
  lemma {:induction false} FilterOfSpaced(w: string)
    requires forall i :: 0 <= i < |w| ==> IsLetter(w[i])
    ensures Filter(" " + w, IsAlnum) == w
  {
    FilterOfLetters(w);
    assert (" " + w)[1..] == w;
  }

  /** The first word passes the filter whole. */
  lemma FilterOfFirstWord()
    ensures Filter("Dark", IsAlnum) == "Dark"
  {
    FilterOfLetters("Dark");
  }

  /** The second word loses the space before it. */
  lemma FilterOfSecondWord()
    ensures Filter(" Elf", IsAlnum) == "Elf"
  {
    FilterOfSpaced("Elf");
  }

  /** Filtering drops the separating space. */
  lemma FilterOfWords()
    ensures Filter("Dark Elf", IsAlnum) == "DarkElf"
  {
    FilterOfFirstWord();
    FilterOfSecondWord();
    assert "Dark Elf" == "Dark" + " Elf";
    FilterConcat("Dark", " Elf", IsAlnum);
    assert "Dark" + "Elf" == "DarkElf";
  }

  /** Words are joined with their initials capitalised. */
  lemma NodeLabelOfWords()
    ensures NodeLabel("dark elf") == "DarkElf"
  {
    TitleOfWords();
    FilterOfWords();
    NodeLabelFromParts("dark elf", "Dark Elf", "DarkElf");
  }

  /** A camel-case type loses its inner capital when title-cased. */
  lemma TitleOfCamelCase()
    ensures Title("DarkElf") == "Darkelf"
  {
    assert "DarkElf" == "Dark" + "Elf";
    TitleAfterConcat("Dark", "Elf", false);
    assert TitleAfter("Dark", false) == "Dark";
    assert TitleAfter("Elf", true) == "elf";
    assert "Dark" + "elf" == "Darkelf";
  }

  /** The title-cased camel-case type is all letters and passes the filter whole. */
  lemma FilterOfCamelCase()
    ensures Filter("Darkelf", IsAlnum) == "Darkelf"
  {
    FilterOfLetters("Darkelf");
  }

  /** The camel-case type itself is labelled with its inner capital lowered. */
  lemma NodeLabelOfCamelCase()
    ensures NodeLabel("DarkElf") == "Darkelf"
  {
    TitleOfCamelCase();
    FilterOfCamelCase();
    NodeLabelFromParts("DarkElf", "Darkelf", "Darkelf");
  }

  /** The label function is not idempotent: a camel-case type loses its inner capital. */
  lemma NodeLabelNotIdempotent()
    ensures NodeLabel(NodeLabel("dark elf")) != NodeLabel("dark elf")
  {
    NodeLabelOfWords();
    NodeLabelOfCamelCase();
    assert "Darkelf"[4] != "DarkElf"[4];
  }

  /** A type with no letter or digit falls back to "Entity". */
  lemma NodeLabelFallback()
    ensures NodeLabel("---") == "Entity"
  {
    assert !HasAlnum("---") by {
      assert forall i :: 0 <= i < 3 ==> "---"[i] == '-';
    }
  }

  /** "Entity" is not only the fallback: the type "entity" has letters and still gives it. */
  lemma NodeLabelEntityWithoutFallback()
    ensures HasAlnum("entity") && NodeLabel("entity") == "Entity"
  {
    assert IsAlnum("entity"[0]);
    assert "entity" == "ent" + "ity";
    TitleAfterConcat("ent", "ity", false);
    assert TitleAfter("ent", false) == "Ent";
    assert TitleAfter("ity", true) == "ity";
    assert "Ent" + "ity" == "Entity";
    FilterKeepsAll("Entity", IsAlnum);
    NodeLabelFromParts("entity", "Entity", "Entity");
  }

  // ---------------------------------------------------------------------------
  // Relationship types: "".join(c for c in rel.upper() if c.isalnum() or c == "_") or "RELATED"

  predicate IsTokenChar(c: char) { IsAlnum(c) || c == '_' }

  predicate IsRelationChar(c: char) { IsUpper(c) || IsDigit(c) || c == '_' }

  predicate HasTokenChar(s: string) {
    exists i :: 0 <= i < |s| && IsTokenChar(s[i])
  }

  /** The relationship type `merge_relationship` writes: the letters, digits and underscores
      of `rel`, upper-cased, or "RELATED" when there are none. */
  function RelationLabel(rel: string): (r: string)
    ensures |r| > 0 && forall i :: 0 <= i < |r| ==> IsRelationChar(r[i])
    ensures !HasTokenChar(rel) ==> r == "RELATED"
    ensures HasTokenChar(rel) ==> r == Upper(Filter(rel, IsTokenChar))
  {
    var u := Upper(rel);
    var kept := Filter(u, IsTokenChar);
    UpperCommutesWithFilter(rel);
    FilterEmpty(rel, IsTokenChar);
    if kept == "" then "RELATED" else kept
  }

  /** Upper-casing and keeping token characters commute. */
  lemma {:induction false} UpperCommutesWithFilter(s: string)
    ensures Filter(Upper(s), IsTokenChar) == Upper(Filter(s, IsTokenChar))
  {
    if |s| > 0 {
      UpperCommutesWithFilter(s[1..]);
      assert Upper(s)[1..] == Upper(s[1..]);
      var f := Filter(s[1..], IsTokenChar);
      if IsTokenChar(s[0]) {
        assert Upper([s[0]] + f) == [ToUpper(s[0])] + Upper(f);
      }
    }
  }

  /** A text of upper-case letters, digits and underscores survives both steps unchanged. */
  lemma {:induction false} RelationCharsFixed(s: string)
    requires forall i :: 0 <= i < |s| ==> IsRelationChar(s[i])
    ensures Upper(s) == s
    ensures Filter(s, IsTokenChar) == s
  {
    if |s| > 0 {
      RelationCharsFixed(s[1..]);
      assert s == [s[0]] + s[1..];
    }
  }

  /** Normalising a relationship type twice is the same as once. */
  lemma RelationLabelIdempotent(rel: string)
    ensures RelationLabel(RelationLabel(rel)) == RelationLabel(rel)
  {
    var r := RelationLabel(rel);
    RelationCharsFixed(r);
    assert IsTokenChar(r[0]);
  }

  // ---------------------------------------------------------------------------
  // Property keys: key.replace(" ", "_").replace("-", "_")

  /** A sanitised property key. */
  function SanitizeKey(k: string): string {
    ReplaceChar(ReplaceChar(k, ' ', '_'), '-', '_')
  }

  /** Sanitising turns every space and hyphen into an underscore in one combined step and
      keeps every other character where it was. */
  lemma SanitizeKeyChars(k: string)
    ensures |SanitizeKey(k)| == |k|
    ensures forall i :: 0 <= i < |k| ==> SanitizeKey(k)[i] == if k[i] == ' ' || k[i] == '-' then '_' else k[i]
    ensures ' ' !in SanitizeKey(k) && '-' !in SanitizeKey(k)
  {
  }

  /** Sanitising a key twice is the same as once. */
  lemma SanitizeKeyIdempotent(k: string)
    ensures SanitizeKey(SanitizeKey(k)) == SanitizeKey(k)
  {
    SanitizeKeyChars(k);
    SanitizeKeyChars(SanitizeKey(k));
  }

  /** The pairs of `attrs` with their keys sanitised, in order. */
  function SanitizedPairs(attrs: seq<(string, Json)>): (r: seq<(string, Json)>)
    ensures |r| == |attrs|
    ensures forall i :: 0 <= i < |attrs| ==> r[i] == (SanitizeKey(attrs[i].0), attrs[i].1)
  {
    seq(|attrs|, i requires 0 <= i < |attrs| => (SanitizeKey(attrs[i].0), attrs[i].1))
  }

  /** The sanitised pairs carry exactly the sanitised keys of `attrs`, none of them holding a
      space or a hyphen. */
  lemma SanitizedPairKeys(attrs: seq<(string, Json)>)
    ensures forall k :: Lookup(SanitizedPairs(attrs), k).Some? <==> exists i :: 0 <= i < |attrs| && SanitizeKey(attrs[i].0) == k
    ensures forall i :: 0 <= i < |attrs| ==> ' ' !in SanitizeKey(attrs[i].0) && '-' !in SanitizeKey(attrs[i].0)
  {
    var pairs := SanitizedPairs(attrs);
    forall k ensures Lookup(pairs, k).Some? <==> exists i :: 0 <= i < |attrs| && SanitizeKey(attrs[i].0) == k {
      if Lookup(pairs, k).Some? {
        var i :| 0 <= i < |pairs| && pairs[i] == (k, Lookup(pairs, k).value);
        assert SanitizeKey(attrs[i].0) == k;
      } else {
        assert forall i :: 0 <= i < |attrs| ==> pairs[i].0 == SanitizeKey(attrs[i].0);
      }
    }
    forall i | 0 <= i < |attrs| ensures ' ' !in SanitizeKey(attrs[i].0) && '-' !in SanitizeKey(attrs[i].0) {
      SanitizeKeyChars(attrs[i].0);
    }
  }

  /** The dict comprehension over `attributes.items()`: one key per sanitised key of the
      items, none holding a space or a hyphen. */
  function SanitizeAttributes(attrs: seq<(string, Json)>): (r: map<string, Json>)
    ensures forall k :: k in r <==> exists i :: 0 <= i < |attrs| && SanitizeKey(attrs[i].0) == k
    ensures forall k :: k in r ==> ' ' !in k && '-' !in k
  {
    SanitizedPairKeys(attrs);
    DictOf(SanitizedPairs(attrs))
  }

  /** No later pair of `attrs` sanitises to the same key as pair `i`. */
  predicate LastWithKey(attrs: seq<(string, Json)>, i: nat)
    requires i < |attrs|
  {
    forall j :: i < j < |attrs| ==> SanitizeKey(attrs[j].0) != SanitizeKey(attrs[i].0)
  }

  /** The comprehension has one key per distinct sanitised key, none holding a space or a
      hyphen, and where keys collide the later pair's value wins. */
  lemma SanitizeAttributesSpec(attrs: seq<(string, Json)>)
    ensures forall i :: 0 <= i < |attrs| ==> SanitizeKey(attrs[i].0) in SanitizeAttributes(attrs)
    ensures forall k :: k in SanitizeAttributes(attrs) ==> exists i :: 0 <= i < |attrs| && SanitizeKey(attrs[i].0) == k
    ensures forall k :: k in SanitizeAttributes(attrs) ==> ' ' !in k && '-' !in k
    ensures forall i :: 0 <= i < |attrs| && LastWithKey(attrs, i) ==> SanitizeAttributes(attrs)[SanitizeKey(attrs[i].0)] == attrs[i].1
  {
    var pairs := SanitizedPairs(attrs);
    var m := SanitizeAttributes(attrs);
    forall i | 0 <= i < |attrs| && LastWithKey(attrs, i) ensures m[SanitizeKey(attrs[i].0)] == attrs[i].1 {
      LookupLastPair(pairs, i);
    }
  }

}
