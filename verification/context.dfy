/** The prompt contexts of `MemoryManager` (memory_manager.py) are a list of parts joined by
    newlines, built section by section: a section contributes its header followed by its
    lines, and nothing at all when it has no lines. */
module Context {
  import opened Text

  datatype Section = Section(header: string, lines: seq<string>)

  /** What one section adds to `parts`. */
  function SectionParts(s: Section): (r: seq<string>)
    ensures |s.lines| == 0 ==> r == []
    ensures |s.lines| > 0 ==> |r| == |s.lines| + 1 && r[0] == s.header && r[1..] == s.lines
  {
    if |s.lines| == 0 then [] else [s.header] + s.lines
  }

  predicate AllEmpty(sections: seq<Section>) {
    forall i :: 0 <= i < |sections| ==> |sections[i].lines| == 0
  }

  /** `parts` after every section has been added, in order. */
  function Parts(sections: seq<Section>): (r: seq<string>)
    ensures r == [] <==> AllEmpty(sections)
  {
    if |sections| == 0 then []
    else
      var r := SectionParts(sections[0]) + Parts(sections[1..]);
      assert AllEmpty(sections) <==> |sections[0].lines| == 0 && AllEmpty(sections[1..]) by {
        assert forall i :: 1 <= i < |sections| ==> sections[i] == sections[1..][i - 1];
      }
      r
  }

  /** Sections are added one after another: the parts of a concatenation are the
      concatenation of the parts. */
  lemma {:induction false} PartsConcat(a: seq<Section>, b: seq<Section>)
    ensures Parts(a + b) == Parts(a) + Parts(b)
  {
    if |a| > 0 {
      assert (a + b)[1..] == a[1..] + b;
      PartsConcat(a[1..], b);
    } else {
      assert a + b == b;
    }
  }

  /** A section with lines opens with its header right after the parts of the sections
      before it. */
  lemma {:induction false} HeaderAt(sections: seq<Section>, i: nat)
    requires i < |sections| && |sections[i].lines| > 0
    ensures |Parts(sections[..i])| < |Parts(sections)|
    ensures Parts(sections)[|Parts(sections[..i])|] == sections[i].header
  {
    PartsSplit(sections, i);
    var p1 := Parts(sections[..i]);
    var sp := SectionParts(sections[i]);
    var p3 := Parts(sections[i + 1..]);
    assert (p1 + sp + p3)[|p1|] == sp[0];
  }

  /** A section without lines leaves no trace between its neighbours. */
  lemma {:induction false} EmptySectionVanishes(sections: seq<Section>, i: nat)
    requires i < |sections| && |sections[i].lines| == 0
    ensures Parts(sections) == Parts(sections[..i]) + Parts(sections[i + 1..])
  {
    PartsSplit(sections, i);
  }

  /** Section `i` sits between the sections before it and those after it. */
  lemma {:induction false} PartsSplit(sections: seq<Section>, i: nat)
    requires i < |sections|
    ensures Parts(sections) == Parts(sections[..i]) + SectionParts(sections[i]) + Parts(sections[i + 1..])
  {
    assert sections == sections[..i] + ([sections[i]] + sections[i + 1..]);
    PartsConcat(sections[..i], [sections[i]] + sections[i + 1..]);
    PartsConcat([sections[i]], sections[i + 1..]);
    assert Parts([sections[i]]) == SectionParts(sections[i]) by {
      assert [sections[i]][1..] == [];
    }
  }

  /** `"\n".join(parts)`: empty when every section is empty, and otherwise not empty as long
      as the headers are not. */
  function Render(sections: seq<Section>): (r: string)
    ensures AllEmpty(sections) ==> r == ""
    ensures (forall i :: 0 <= i < |sections| ==> sections[i].header != "") ==> (r == "" <==> AllEmpty(sections))
  {
    var parts := Parts(sections);
    assert (forall i :: 0 <= i < |sections| ==> sections[i].header != "") && parts != [] ==> parts[0] != "" by {
      if (forall i :: 0 <= i < |sections| ==> sections[i].header != "") && parts != [] {
        FirstPartIsHeader(sections);
      }
    }
    Join(parts, "\n")
  }

  /** The first part is the header of the first section that has lines. */
  lemma {:induction false} FirstPartIsHeader(sections: seq<Section>)
    requires !AllEmpty(sections)
    ensures exists i :: 0 <= i < |sections| && Parts(sections)[0] == sections[i].header
  {
    if |sections[0].lines| == 0 {
      assert !AllEmpty(sections[1..]) by {
        var j :| 0 <= j < |sections| && |sections[j].lines| > 0;
        assert sections[1..][j - 1] == sections[j];
      }
      FirstPartIsHeader(sections[1..]);
      var i :| 0 <= i < |sections[1..]| && Parts(sections[1..])[0] == sections[1..][i].header;
      assert sections[i + 1] == sections[1..][i];
    } else {
      assert Parts(sections)[0] == sections[0].header;
    }
  }
}
