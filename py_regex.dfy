/**
 * The three regular expressions that both content converters run over the
 * Markdown source, written out as explicit scans with Python's `re`
 * semantics (leftmost match, greedy and lazy quantifiers with backtracking):
 *
 *   title:     re.search(r'^# (.+)$', s, re.MULTILINE)
 *   title body re.search(r'^# .+\n+([\s\S]+?)(?=\n## |$)', s)
 *   sections:  re.findall(r'## (.+)\n+([\s\S]+?)(?=\n## |$)', s)
 *
 * Only the last two run without MULTILINE: their `^` is the start of the text
 * and their `$` is the end of the text or the position before a final newline.
 * Python's `.` is any character but a newline.
 */
module PyRegex {
  import opened Strings

  /** The end of the line that contains index `i`: the next newline at or after `i`, or `|s|`. */
  function LineEnd(s: string, i: nat): (j: nat)
    requires i <= |s|
    ensures i <= j <= |s|
    ensures j == |s| || s[j] == '\n'
    ensures forall k :: i <= k < j ==> s[k] != '\n'
    decreases |s| - i
  {
    if i == |s| || s[i] == '\n' then i else LineEnd(s, i + 1)
  }

  /** Greedy `\n*` from `i`: the first index at or after `i` that is not a newline. */
  function SkipNewlines(s: string, i: nat): (j: nat)
    requires i <= |s|
    ensures i <= j <= |s|
    ensures j == |s| || s[j] != '\n'
    ensures forall k :: i <= k < j ==> s[k] == '\n'
    decreases |s| - i
  {
    if i < |s| && s[i] == '\n' then SkipNewlines(s, i + 1) else i
  }

  /** The lookahead `(?=\n## |$)` (not MULTILINE) holds at index `e`. */
  predicate BodyStop(s: string, e: nat)
  {
    e == |s| || (e + 1 == |s| && s[e] == '\n') || StartsAt(s, e, "\n## ")
  }

  /** The lazy `[\s\S]+?` stops at the first index at or after `e` where the lookahead holds. */
  function FirstStop(s: string, e: nat): (f: nat)
    requires e <= |s|
    ensures e <= f <= |s| && BodyStop(s, f)
    ensures forall k :: e <= k < f ==> !BodyStop(s, k)
    decreases |s| - e
  {
    if BodyStop(s, e) then e else FirstStop(s, e + 1)
  }

  /**
   * `\n+([\s\S]+?)(?=\n## |$)` tried at `q`, the end of a heading line.
   * The greedy `\n+` takes every newline; the lazy group then takes at least
   * one character and stops at the first lookahead. When nothing but newlines
   * is left, `\n+` gives back one newline so that the group is that newline;
   * with a single newline left the match fails.
   */
  function MatchBody(s: string, q: nat): (r: Option<(nat, nat)>)
    requires q <= |s|
    ensures r.Some? ==> q < r.value.0 < r.value.1 <= |s| && BodyStop(s, r.value.1)
    ensures r.Some? ==> forall k :: r.value.0 < k < r.value.1 ==> !BodyStop(s, k)
    ensures r.None? <==> q == |s| || s[q] != '\n' || (SkipNewlines(s, q) == |s| && |s| == q + 1)
  {
    if q == |s| || s[q] != '\n' then None
    else
      var p := SkipNewlines(s, q);
      if p < |s| then Some((p, FirstStop(s, p + 1)))
      else if p >= q + 2 then Some((p - 1, p))
      else None
  }

  /** Index `i` begins a line (MULTILINE `^`). */
  predicate LineStart(s: string, i: nat)
  {
    i <= |s| && (i == 0 || s[i - 1] == '\n')
  }

  /** The line at index `i` is `# ` followed by at least one character: `^# (.+)$` matches there. */
  predicate TitleLineAt(s: string, i: nat)
    requires i <= |s|
  {
    i + 2 <= |s| && s[i] == '#' && s[i + 1] == ' ' && LineEnd(s, i) > i + 2
  }

  /**
   * Where the MULTILINE search for `^# (.+)$` from line start `i` matches:
   * the first line at or after `i` that is a title line, or `|s| + 1` when
   * there is none. The search moves from line to line.
   */
  function TitleIndex(s: string, i: nat): (j: nat)
    requires i <= |s|
    ensures i <= j <= |s| + 1
    ensures j <= |s| ==> TitleLineAt(s, j)
    decreases |s| - i
  {
    if TitleLineAt(s, i) then i
    else if LineEnd(s, i) == |s| then |s| + 1
    else TitleIndex(s, LineEnd(s, i) + 1)
  }

  /** Group 1 of the first MULTILINE match of `^# (.+)$` at or after line start `i`. */
  function TitleFrom(s: string, i: nat): Option<string>
    requires i <= |s|
  {
    var j := TitleIndex(s, i);
    if j <= |s| then Some(s[j + 2..LineEnd(s, j)]) else None
  }

  /** `re.search(r'^# (.+)$', s, re.MULTILINE).group(1)`, or None when there is no match. */
  function FirstTitle(s: string): Option<string>
  {
    TitleFrom(s, 0)
  }

  /** No line starts inside the line that starts at `i`. */
  lemma LineInterior(s: string, i: nat)
    requires i <= |s|
    ensures forall k :: i < k <= LineEnd(s, i) ==> !LineStart(s, k)
  {
    forall k | i < k <= LineEnd(s, i) ensures !LineStart(s, k) {
      assert s[k - 1] != '\n';
    }
  }

  /** The search from a line start stops at a line start, and no earlier line is a title line. */
  lemma {:induction false} TitleIndexSpec(s: string, i: nat)
    requires LineStart(s, i)
    ensures var j := TitleIndex(s, i);
      (j <= |s| ==> LineStart(s, j))
      && forall k :: i <= k < j && k <= |s| && LineStart(s, k) ==> !TitleLineAt(s, k)
    decreases |s| - i
  {
    if !TitleLineAt(s, i) {
      var e := LineEnd(s, i);
      LineInterior(s, i);
      if e < |s| {
        TitleIndexSpec(s, e + 1);
      }
    }
  }

  /** The title is the rest of the first `# ` line, wherever that line is. */
  lemma TitleFromSpec(s: string, i: nat)
    requires LineStart(s, i)
    ensures TitleFrom(s, i).Some? ==>
      (exists j :: i <= j <= |s| && LineStart(s, j) && TitleLineAt(s, j)
        && TitleFrom(s, i).value == s[j + 2..LineEnd(s, j)]
        && forall k :: i <= k < j && LineStart(s, k) ==> !TitleLineAt(s, k))
    ensures TitleFrom(s, i).None? ==> forall k :: i <= k <= |s| && LineStart(s, k) ==> !TitleLineAt(s, k)
  {
    TitleIndexSpec(s, i);
  }

  /** Group 1 of `^# .+\n+([\s\S]+?)(?=\n## |$)`: only tried at index 0. */
  function TitleBody(s: string): (r: Option<string>)
    ensures r.Some? ==> StartsAt(s, 0, "# ") && r.value != []
  {
    if StartsAt(s, 0, "# ") && LineEnd(s, 0) > 2 then
      match MatchBody(s, LineEnd(s, 0))
      case Some(g) => Some(s[g.0..g.1])
      case None => None
    else None
  }

  /**
   * `re.findall(r'## (.+)\n+([\s\S]+?)(?=\n## |$)', s[i..])` as (header, body)
   * pairs. There is no `^`: a match may start anywhere, also in the middle of
   * a line such as `### x`; after a match the scan resumes where it ended.
   */
  function SectionsFrom(s: string, i: nat): (r: seq<(string, string)>)
    requires i <= |s|
    ensures forall j :: 0 <= j < |r| ==> r[j].0 != [] && r[j].1 != []
    ensures forall j, k :: 0 <= j < |r| && 0 <= k < |r[j].0| ==> r[j].0[k] != '\n'
    decreases |s| - i
  {
    if i == |s| then []
    else if StartsAt(s, i, "## ") && LineEnd(s, i) > i + 3 then
      var q := LineEnd(s, i);
      match MatchBody(s, q)
      case Some(g) => [(s[i + 3..q], s[g.0..g.1])] + SectionsFrom(s, g.1)
      case None => SectionsFrom(s, i + 1)
    else SectionsFrom(s, i + 1)
  }

  function Sections(s: string): seq<(string, string)>
  {
    SectionsFrom(s, 0)
  }

  /** `b` contains no `\n## ` after its first character. */
  predicate StopFree(b: string)
  {
    forall k :: 0 < k <= |b| ==> !StartsAt(b, k, "\n## ")
  }

  /** A section body never contains the `\n## ` that would have ended it, except at its very start. */
  lemma {:induction false} SectionBodiesStopAtNextHeading(s: string, i: nat)
    requires i <= |s|
    ensures forall j :: 0 <= j < |SectionsFrom(s, i)| ==> StopFree(SectionsFrom(s, i)[j].1)
    decreases |s| - i
  {
    if i < |s| && StartsAt(s, i, "## ") && LineEnd(s, i) > i + 3 {
      var q := LineEnd(s, i);
      if MatchBody(s, q).Some? {
        var g := MatchBody(s, q).value;
        SectionBodiesStopAtNextHeading(s, g.1);
        BodyHasNoStop(s, q);
        BodiesCons((s[i + 3..q], s[g.0..g.1]), SectionsFrom(s, g.1));
      } else {
        SectionBodiesStopAtNextHeading(s, i + 1);
        assert SectionsFrom(s, i) == SectionsFrom(s, i + 1);
      }
    } else if i < |s| {
      SectionBodiesStopAtNextHeading(s, i + 1);
      assert SectionsFrom(s, i) == SectionsFrom(s, i + 1);
    }
  }

  /** Every body of a list with one more section in front is free of stops. */
  lemma BodiesCons(p: (string, string), t: seq<(string, string)>)
    requires StopFree(p.1)
    requires forall j :: 0 <= j < |t| ==> StopFree(t[j].1)
    ensures forall j :: 0 <= j < |[p] + t| ==> StopFree(([p] + t)[j].1)
  {
    assert forall j :: 1 <= j < |[p] + t| ==> ([p] + t)[j] == t[j - 1];
  }

  /** A matched body contains no `\n## ` after its first character. */
  lemma BodyHasNoStop(s: string, q: nat)
    requires q <= |s| && MatchBody(s, q).Some?
    ensures var g := MatchBody(s, q).value; StopFree(s[g.0..g.1])
  {
    var g := MatchBody(s, q).value;
    var b := s[g.0..g.1];
    forall k | 0 < k <= |b| ensures !StartsAt(b, k, "\n## ") {
      if StartsAt(b, k, "\n## ") {
        StartsAtSlice(s, g.0, g.1, k, "\n## ");
        assert BodyStop(s, g.0 + k);
      }
    }
  }

  /** The lookahead cannot hold at a character other than a newline that is not the last. */
  lemma NoStopAt(s: string, e: nat)
    requires e + 1 < |s| && s[e] != '\n'
    ensures !BodyStop(s, e)
  {
    StartsAtFirst(s, e, "\n## ");
  }

  /** A heading line right after another heading is absorbed into the first section's body. */
  lemma HeadingWithoutBodyAbsorbsNext()
    ensures Sections("## A\n## B\nx") == [("A", "## B\nx")]
  {
    var s := "## A\n## B\nx";
    assert StartsAt(s, 0, "## ");
    assert LineEnd(s, 3) == 4 by { assert LineEnd(s, 4) == 4; }
    assert LineEnd(s, 0) == 4;
    assert SkipNewlines(s, 4) == 5 by { assert SkipNewlines(s, 5) == 5; }
    assert FirstStop(s, 6) == 11 by {
      NoStopAt(s, 6);
      NoStopAt(s, 7);
      NoStopAt(s, 8);
      assert FirstStop(s, 10) == 11;
      assert FirstStop(s, 9) == 11;
      assert FirstStop(s, 8) == 11;
      assert FirstStop(s, 7) == 11;
    }
    assert MatchBody(s, 4) == Some((5, 11));
    assert s[3..4] == "A";
    assert forall k :: 0 <= k < 6 ==> s[5..11][k] == "## B\nx"[k];
    assert s[5..11] == "## B\nx";
    assert SectionsFrom(s, 11) == [];
    assert SectionsFrom(s, 0) == [(s[3..4], s[5..11])] + SectionsFrom(s, 11);
  }

  /** With no text between the title line and the first section, the title body is that section. */
  lemma TitleBodyAbsorbsFirstSection()
    ensures TitleBody("# T\n## A\nx") == Some("## A\nx")
  {
    var s := "# T\n## A\nx";
    assert StartsAt(s, 0, "# ");
    assert LineEnd(s, 0) == 3 by { assert LineEnd(s, 3) == 3; assert LineEnd(s, 2) == 3; assert LineEnd(s, 1) == 3; }
    assert SkipNewlines(s, 3) == 4 by { assert SkipNewlines(s, 4) == 4; }
    assert FirstStop(s, 5) == 10 by {
      NoStopAt(s, 5);
      NoStopAt(s, 6);
      NoStopAt(s, 7);
      assert FirstStop(s, 9) == 10;
      assert FirstStop(s, 8) == 10;
      assert FirstStop(s, 7) == 10;
      assert FirstStop(s, 6) == 10;
    }
    assert MatchBody(s, 3) == Some((4, 10));
    assert forall k :: 0 <= k < 6 ==> s[4..10][k] == "## A\nx"[k];
    assert s[4..10] == "## A\nx";
  }

  /** What the three searches find in a document, in the order the scripts use them. */
  datatype Matches = Matches(title: Option<string>, titleBody: Option<string>, sections: seq<(string, string)>)

  function Match(s: string): (m: Matches)
    ensures m.titleBody.Some? ==> StartsAt(s, 0, "# ")
  {
    Matches(FirstTitle(s), TitleBody(s), Sections(s))
  }
}
