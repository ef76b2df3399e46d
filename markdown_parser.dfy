/**
 * The browser-side Markdown reader `parseMarkdownContent`: the text is cut
 * in front of every `# ` or `## ` heading line, each piece whose first line
 * is such a heading becomes a `header-<id>` entry (and, when it has a body,
 * a `description-<id>` entry), where the id is the lower-cased title with
 * every run of characters outside `[a-z0-9]` replaced by one dash.
 */
module MarkdownParser {
  import opened Strings

  // ----- the split `markdown.split(/(?=^#{1,2} .*$)/m)` -----

  /** A JavaScript line terminator: what `^` and `$` look for in multiline mode and what `.` refuses. */
  predicate Terminator(c: char)
  {
    c == '\n' || c == '\r' || c == '\U{2028}' || c == '\U{2029}'
  }

  /** Multiline `^` at index `q`. */
  predicate LineStartAt(s: string, q: nat)
  {
    q == 0 || (0 < q <= |s| && Terminator(s[q - 1]))
  }

  /** `#{1,2} ` matches at index `q`; `.*$` after it always matches in multiline mode. */
  predicate MarkerAt(s: string, q: nat)
  {
    StartsAt(s, q, "# ") || StartsAt(s, q, "## ")
  }

  /** The lookahead `(?=^#{1,2} .*$)` holds at index `q`. */
  predicate Boundary(s: string, q: nat)
  {
    LineStartAt(s, q) && MarkerAt(s, q)
  }

  /** The first index at or after `i` where the lookahead holds, or `|s|`. */
  function NextBoundary(s: string, i: nat): (j: nat)
    requires i <= |s|
    ensures i <= j <= |s|
    ensures j < |s| ==> Boundary(s, j)
    ensures forall k :: i <= k < j ==> !Boundary(s, k)
    decreases |s| - i
  {
    if i == |s| || Boundary(s, i) then i else NextBoundary(s, i + 1)
  }

  /**
   * The pieces of the split from index `p` on. A zero-width match at the
   * start of the current piece is skipped, so every cut lies strictly
   * after it.
   */
  function SectionsFrom(s: string, p: nat): (secs: seq<string>)
    requires p < |s|
    ensures |secs| >= 1
    decreases |s| - p
  {
    var q := NextBoundary(s, p + 1);
    [s[p..q]] + (if q == |s| then [] else SectionsFrom(s, q))
  }

  /** `markdown.split(/(?=^#{1,2} .*$)/m)`; the empty text splits into one empty piece. */
  function Sections(s: string): (secs: seq<string>)
    ensures |secs| >= 1
  {
    if s == [] then [""] else SectionsFrom(s, 0)
  }

  function Concat(secs: seq<string>): string
  {
    if secs == [] then [] else secs[0] + Concat(secs[1..])
  }

  /** No cut falls inside a piece: no heading of `t` starts after its first character. */
  predicate NoInnerBoundary(t: string)
  {
    forall q :: 0 < q < |t| ==> !Boundary(t, q)
  }

  /** `t` is non-empty and ends with a line terminator. */
  predicate EndsLine(t: string)
  {
    t != [] && Terminator(t[|t| - 1])
  }

  /** A lookahead inside a piece is one in the whole text. */
  lemma InnerBoundary(s: string, p: nat, q: nat, k: nat)
    requires p <= q <= |s| && 0 < k < q - p
    requires Boundary(s[p..q], k)
    ensures Boundary(s, p + k)
  {
    var t := s[p..q];
    assert t[k - 1] == s[p + k - 1];
    if StartsAt(t, k, "# ") {
      StartsAtSlice(s, p, q, k, "# ");
    } else {
      StartsAtSlice(s, p, q, k, "## ");
    }
  }

  /** A heading marker at `p` is followed by no cut before the marker's end. */
  lemma MarkerNotCut(s: string, p: nat)
    requires MarkerAt(s, p)
    ensures p + 2 <= NextBoundary(s, p + 1)
    ensures StartsAt(s, p, "## ") ==> p + 3 <= NextBoundary(s, p + 1)
  {
    assert s[p..p + 2][0] == s[p];
    assert !Boundary(s, p + 1);
    if StartsAt(s, p, "## ") {
      assert s[p..p + 3][1] == s[p + 1];
      assert !Boundary(s, p + 2);
    }
  }

  /** The pieces of the split from `p` on, put back together, are `s[p..]`. */
  lemma {:induction false} SectionsFromConcat(s: string, p: nat)
    requires p < |s|
    ensures Concat(SectionsFrom(s, p)) == s[p..]
    decreases |s| - p
  {
    var q := NextBoundary(s, p + 1);
    if q < |s| {
      SectionsFromConcat(s, q);
      var secs := SectionsFrom(s, p);
      assert secs[1..] == SectionsFrom(s, q);
      assert s[p..] == s[p..q] + s[q..];
    }
  }

  /** The first piece from a cut `p` starts with the heading marker found there. */
  lemma FirstPieceMarked(s: string, p: nat)
    requires p < |s| && MarkerAt(s, p)
    ensures MarkerAt(s[p..NextBoundary(s, p + 1)], 0)
  {
    var q := NextBoundary(s, p + 1);
    var t := s[p..q];
    MarkerNotCut(s, p);
    if StartsAt(s, p, "# ") {
      assert t[0..2] == s[p..p + 2];
    } else {
      assert t[0..3] == s[p..p + 3];
    }
  }

  /** No piece of the split from `p` on contains a further cut. */
  lemma {:induction false} SectionsFromUncut(s: string, p: nat)
    requires p < |s|
    ensures forall j :: 0 <= j < |SectionsFrom(s, p)| ==> NoInnerBoundary(SectionsFrom(s, p)[j])
    decreases |s| - p
  {
    var q := NextBoundary(s, p + 1);
    var t := s[p..q];
    forall k | 0 < k < |t| ensures !Boundary(t, k) {
      if Boundary(t, k) {
        InnerBoundary(s, p, q, k);
      }
    }
    if q < |s| {
      SectionsFromUncut(s, q);
      var secs := SectionsFrom(s, p);
      assert secs[1..] == SectionsFrom(s, q);
      forall j | 1 <= j < |secs| ensures secs[j] == SectionsFrom(s, q)[j - 1] {
      }
    }
  }

  /**
   * Every piece of the split from `p` on after the first starts with a
   * heading marker, and every piece before the last ends with a line
   * terminator.
   */
  lemma {:induction false} SectionsFromMarked(s: string, p: nat)
    requires p < |s|
    ensures forall j :: 0 < j < |SectionsFrom(s, p)| ==> MarkerAt(SectionsFrom(s, p)[j], 0)
    ensures forall j :: 0 <= j < |SectionsFrom(s, p)| - 1 ==> EndsLine(SectionsFrom(s, p)[j])
    decreases |s| - p
  {
    var q := NextBoundary(s, p + 1);
    if q < |s| {
      var secs := SectionsFrom(s, p);
      var rest := SectionsFrom(s, q);
      SectionsFromMarked(s, q);
      FirstPieceMarked(s, q);
      assert secs[1..] == rest;
      assert s[p..q][q - p - 1] == s[q - 1];
      forall j | 1 <= j < |secs| ensures secs[j] == rest[j - 1] {
      }
    }
  }

  /**
   * The split, as a whole: its pieces put back together are the text; every
   * piece after the first starts with a `# ` or `## ` marker; every piece
   * before the last ends with a line terminator, so each marker starts a
   * line; and no piece contains a further such line.
   */
  lemma SectionsSpec(s: string)
    ensures var secs := Sections(s);
      Concat(secs) == s
      && (forall j :: 0 < j < |secs| ==> MarkerAt(secs[j], 0))
      && (forall j :: 0 <= j < |secs| - 1 ==> EndsLine(secs[j]))
      && (forall j :: 0 <= j < |secs| ==> NoInnerBoundary(secs[j]))
  {
    if s != [] {
      SectionsFromConcat(s, 0);
      SectionsFromUncut(s, 0);
      SectionsFromMarked(s, 0);
    }
  }

  /** A `### ` heading is no cut: only levels one and two start a piece. */
  lemma DeeperHeadingNoBoundary(s: string, q: nat)
    requires StartsAt(s, q, "###")
    ensures !Boundary(s, q)
  {
    assert s[q..q + 3][1] == s[q + 1];
    assert s[q..q + 3][2] == s[q + 2];
  }

  // ----- one section -----

  /** What the heading regex and the slices give for a section whose first line is a heading. */
  datatype Heading = Heading(level: nat, title: string, content: string)

  /** `line.match(/^(#{1,2}) (.*)$/)` without the multiline flag: the level and group 2. */
  function HeadingLine(line: string): (r: Option<(nat, string)>)
    ensures r.Some? ==> (r.value.0 == 1 || r.value.0 == 2)
    ensures r.Some? ==> StartsAt(line, 0, if r.value.0 == 1 then "# " else "## ")
    ensures r.Some? ==> forall i :: 0 <= i < |r.value.1| ==> !Terminator(r.value.1[i])
  {
    if StartsAt(line, 0, "## ") then
      if forall i :: 3 <= i < |line| ==> !Terminator(line[i]) then Some((2, line[3..])) else None
    else if StartsAt(line, 0, "# ") then
      if forall i :: 2 <= i < |line| ==> !Terminator(line[i]) then Some((1, line[2..])) else None
    else None
  }

  /**
   * One `forEach` step before the map is touched: the trimmed section's
   * first line must be a heading; the title is the trimmed rest of that
   * line and the content is the trimmed join of the remaining lines.
   */
  function ParseSection(section: string): Option<Heading>
  {
    var lines := Split(Trim(JavaScript, section), "\n");
    match HeadingLine(lines[0])
    case None => None
    case Some((level, rest)) =>
      Some(Heading(level, Trim(JavaScript, rest), Trim(JavaScript, Join(lines[1..], "\n"))))
  }

  /**
   * A parsed section's heading is the first line of the trimmed section and
   * its content is the trimmed text after that line (empty without one).
   */
  lemma ParseSectionSpec(section: string)
    ensures var t := Trim(JavaScript, section); var k := IndexOf(t, "\n", 0);
      ParseSection(section).Some? <==> HeadingLine(t[..k]).Some?
    ensures var t := Trim(JavaScript, section); var k := IndexOf(t, "\n", 0);
      ParseSection(section).Some? ==>
        ParseSection(section).value.content == (if k == |t| then [] else Trim(JavaScript, t[k + 1..]))
  {
    var t := Trim(JavaScript, section);
    var k := IndexOf(t, "\n", 0);
    var lines := Split(t, "\n");
    if k == |t| {
      assert lines == [t];
      assert t[..k] == t;
      assert Join(lines[1..], "\n") == [];
      assert Trim(JavaScript, []) == [];
    } else {
      assert lines == [t[..k]] + Split(t[k + 1..], "\n");
      assert lines[1..] == Split(t[k + 1..], "\n");
      JoinSplit(t[k + 1..], "\n");
    }
  }

  /** A heading line ending in a carriage return (a CRLF file) does not match the heading regex. */
  lemma CarriageReturnHeadingIgnored(line: string)
    requires |line| > 0 && line[|line| - 1] == '\r'
    ensures HeadingLine(line) == None
  {
    if StartsAt(line, 0, "## ") {
      assert !Terminator(line[|line| - 1]) ==> false;
    }
  }

  /**
   * In a CRLF file the trim of the whole piece decides: a heading with
   * nothing under it loses its `\r\n` to the trim and is kept.
   */
  lemma CarriageReturnLoneHeadingKept()
    ensures ParseSection("# T\r\n") == Some(Heading(1, "T", ""))
  {
    var s := "# T\r\n";
    assert s[..4] == "# T\r" && "# T\r"[..3] == "# T";
    assert Trim(JavaScript, "# T") == "# T";
    assert Trim(JavaScript, s) == "# T";
    var t := "# T";
    assert !StartsAt(t, 0, "\n") && !StartsAt(t, 1, "\n") && !StartsAt(t, 2, "\n");
    assert IndexOf(t, "\n", 0) == 3;
    assert Split(t, "\n") == [t];
    assert !StartsAt(t, 0, "## ") && StartsAt(t, 0, "# ");
    assert HeadingLine(t) == Some((1, "T"));
    assert Trim(JavaScript, "T") == "T";
    assert Join([t][1..], "\n") == [];
  }

  /** A CRLF heading followed by a further line keeps its `\r` and the piece is ignored. */
  lemma CarriageReturnHeadingWithBodyIgnored()
    ensures ParseSection("# T\r\nbody") == None
  {
    var s := "# T\r\nbody";
    assert Trim(JavaScript, s) == s;
    assert !StartsAt(s, 0, "\n") && !StartsAt(s, 1, "\n") && !StartsAt(s, 2, "\n") && !StartsAt(s, 3, "\n");
    assert StartsAt(s, 4, "\n");
    assert IndexOf(s, "\n", 0) == 4;
    assert Split(s, "\n")[0] == s[..4] == "# T\r";
    CarriageReturnHeadingIgnored("# T\r");
  }

  // ----- the id `title.toLowerCase().replace(/[^a-z0-9]+/g, '-')` -----

  /** `toLowerCase` on the ASCII letters. */
  function LowerChar(c: char): char
  {
    if 'A' <= c <= 'Z' then (c as int + 32) as char else c
  }

  function Lower(s: string): (r: string)
    ensures |r| == |s|
    ensures forall i :: 0 <= i < |r| ==> !('A' <= r[i] <= 'Z')
    ensures forall i :: 0 <= i < |s| && !('A' <= s[i] <= 'Z') ==> r[i] == s[i]
    ensures forall i :: 0 <= i < |s| && 'A' <= s[i] <= 'Z' ==>
      'a' <= r[i] <= 'z' && r[i] as int - 'a' as int == s[i] as int - 'A' as int
  {
    seq(|s|, i requires 0 <= i < |s| => LowerChar(s[i]))
  }

  /** Inside the class `[a-z0-9]`. */
  predicate IsAlnum(c: char)
  {
    'a' <= c <= 'z' || '0' <= c <= '9'
  }

  /** `s` without its leading run of characters outside the class. */
  function DropRun(s: string): (r: string)
    ensures |r| <= |s|
    ensures r == [] || IsAlnum(r[0])
    ensures s != [] && !IsAlnum(s[0]) ==> |r| < |s|
  {
    if s != [] && !IsAlnum(s[0]) then DropRun(s[1..]) else s
  }

  /** `s.replace(/[^a-z0-9]+/g, '-')`: each maximal run outside the class becomes one dash. */
  function Slug(s: string): string
    decreases |s|
  {
    if s == [] then []
    else if IsAlnum(s[0]) then [s[0]] + Slug(s[1..])
    else "-" + Slug(DropRun(s))
  }

  /** The id `parseMarkdownContent` derives from a title. */
  function TitleId(title: string): string
  {
    Slug(Lower(title))
  }

  /** Only class characters and dashes, and never two dashes in a row. */
  predicate Clean(t: string)
  {
    (forall i :: 0 <= i < |t| ==> IsAlnum(t[i]) || t[i] == '-')
    && (forall i :: 0 <= i < |t| - 1 ==> !(t[i] == '-' && t[i + 1] == '-'))
  }

  /** The class characters of `s`, in order. */
  function Alnums(s: string): string
  {
    if s == [] then [] else (if IsAlnum(s[0]) then [s[0]] else []) + Alnums(s[1..])
  }

  lemma {:induction false} SlugHead(s: string)
    requires s != [] && IsAlnum(s[0])
    ensures Slug(s) != [] && Slug(s)[0] == s[0]
  {
  }

  /** An id holds only `[a-z0-9]` and single dashes. */
  lemma {:induction false} SlugClean(s: string)
    ensures Clean(Slug(s))
    decreases |s|
  {
    if s != [] {
      if IsAlnum(s[0]) {
        SlugClean(s[1..]);
        assert Slug(s) == [s[0]] + Slug(s[1..]);
      } else {
        var r := DropRun(s);
        SlugClean(r);
        assert Slug(s) == "-" + Slug(r);
        if r != [] {
          SlugHead(r);
        }
      }
    }
  }

  /** A clean text is its own id. */
  lemma {:induction false} SlugOfClean(t: string)
    requires Clean(t)
    ensures Slug(t) == t
    decreases |t|
  {
    if t != [] {
      assert Clean(t[1..]) by {
        assert forall i :: 0 <= i < |t[1..]| ==> t[1..][i] == t[i + 1];
      }
      SlugOfClean(t[1..]);
      if !IsAlnum(t[0]) {
        assert t[0] == '-';
        assert t[1..] == [] || IsAlnum(t[1]);
        assert DropRun(t[1..]) == t[1..];
        assert DropRun(t) == t[1..];
      }
      assert t == [t[0]] + t[1..];
    }
  }

  /** Deriving the id a second time changes nothing. */
  lemma SlugIdempotent(s: string)
    ensures Slug(Slug(s)) == Slug(s)
  {
    SlugClean(s);
    SlugOfClean(Slug(s));
  }

  lemma {:induction false} DropRunAlnums(s: string)
    ensures Alnums(DropRun(s)) == Alnums(s)
    decreases |s|
  {
    if s != [] && !IsAlnum(s[0]) {
      DropRunAlnums(s[1..]);
    }
  }

  /** The id keeps every class character of the text, in order, and adds none. */
  lemma {:induction false} SlugKeepsAlnums(s: string)
    ensures Alnums(Slug(s)) == Alnums(s)
    decreases |s|
  {
    if s != [] {
      if IsAlnum(s[0]) {
        SlugKeepsAlnums(s[1..]);
        assert (Slug(s))[1..] == Slug(s[1..]);
      } else {
        var r := DropRun(s);
        SlugKeepsAlnums(r);
        DropRunAlnums(s);
        assert (Slug(s))[1..] == Slug(r);
      }
    }
  }

  /** A run outside the class dropped in front of a text that starts inside it leaves that text. */
  lemma {:induction false} DropRunOfRun(r: string, b: string)
    requires forall i :: 0 <= i < |r| ==> !IsAlnum(r[i])
    requires b == [] || IsAlnum(b[0])
    ensures DropRun(r + b) == b
    decreases |r|
  {
    if r == [] {
      assert r + b == b;
    } else {
      assert (r + b)[1..] == r[1..] + b;
      DropRunOfRun(r[1..], b);
    }
  }

  /** Once the leading run is over, what follows plays no part in dropping it. */
  lemma {:induction false} DropRunAppend(a: string, x: string)
    requires DropRun(a) != []
    ensures DropRun(a + x) == DropRun(a) + x
    decreases |a|
  {
    if !IsAlnum(a[0]) {
      assert (a + x)[1..] == a[1..] + x;
      DropRunAppend(a[1..], x);
    }
  }

  /**
   * Each maximal run outside the class becomes exactly one dash: a run
   * between a text that ends inside the class (or nothing) and one that
   * starts inside it (or nothing) contributes a single `-` and nothing else.
   */
  lemma {:induction false} SlugRun(a: string, r: string, b: string)
    requires a == [] || IsAlnum(a[|a| - 1])
    requires r != [] && forall i :: 0 <= i < |r| ==> !IsAlnum(r[i])
    requires b == [] || IsAlnum(b[0])
    ensures Slug(a + r + b) == Slug(a) + "-" + Slug(b)
    decreases |a|, 1
  {
    if a == [] {
      assert a + r + b == r + b;
      DropRunOfRun(r, b);
    } else if IsAlnum(a[0]) {
      SlugRunKeep(a, r, b);
    } else {
      SlugRunSkip(a, r, b);
    }
  }

  /** `SlugRun` when `a` starts inside the class: that character is copied. */
  lemma {:induction false} SlugRunKeep(a: string, r: string, b: string)
    requires a != [] && IsAlnum(a[0]) && IsAlnum(a[|a| - 1])
    requires r != [] && forall i :: 0 <= i < |r| ==> !IsAlnum(r[i])
    requires b == [] || IsAlnum(b[0])
    ensures Slug(a + r + b) == Slug(a) + "-" + Slug(b)
    decreases |a|, 0
  {
    var t := a + r + b;
    var rest := a[1..];
    assert t[0] == a[0] && t[1..] == rest + r + b;
    SlugRun(rest, r, b);
    assert Slug(t) == [a[0]] + Slug(rest + r + b);
    assert Slug(a) == [a[0]] + Slug(rest);
    Regroup([a[0]], Slug(rest), "-", Slug(b));
  }

  lemma Regroup<T>(p: seq<T>, q: seq<T>, r: seq<T>, s: seq<T>)
    ensures p + (q + r + s) == (p + q) + r + s
  {
  }

  /** `SlugRun` when `a` starts outside the class: its leading run becomes the first dash. */
  lemma {:induction false} SlugRunSkip(a: string, r: string, b: string)
    requires a != [] && !IsAlnum(a[0]) && IsAlnum(a[|a| - 1])
    requires r != [] && forall i :: 0 <= i < |r| ==> !IsAlnum(r[i])
    requires b == [] || IsAlnum(b[0])
    ensures Slug(a + r + b) == Slug(a) + "-" + Slug(b)
    decreases |a|, 0
  {
    var a2 := DropRun(a);
    assert a2 != [] by {
      if a2 == [] {
        DropRunAlnums(a);
        AlnumsLast(a);
      }
    }
    var t := a + r + b;
    assert t[0] == a[0] && t == a + (r + b);
    DropRunAppend(a, r + b);
    assert DropRun(t) == a2 + r + b;
    DropRunEnd(a);
    SlugRun(a2, r, b);
    assert Slug(t) == "-" + Slug(a2 + r + b);
    assert Slug(a) == "-" + Slug(a2);
    Regroup("-", Slug(a2), "-", Slug(b));
  }

  /** A text that ends inside the class has a class character. */
  lemma {:induction false} AlnumsLast(a: string)
    requires a != [] && IsAlnum(a[|a| - 1])
    ensures Alnums(a) != []
    decreases |a|
  {
    if !IsAlnum(a[0]) {
      AlnumsLast(a[1..]);
    }
  }

  /** Dropping the leading run keeps the end of the text. */
  lemma {:induction false} DropRunEnd(a: string)
    requires DropRun(a) != []
    ensures DropRun(a)[|DropRun(a)| - 1] == a[|a| - 1]
    decreases |a|
  {
    if !IsAlnum(a[0]) {
      DropRunEnd(a[1..]);
    }
  }

  /** Titles that differ only in case and punctuation share an id, so the later one overwrites. */
  lemma TitlesCollide()
    ensures TitleId("A B") == "a-b"
    ensures TitleId("a-b") == "a-b"
  {
    assert Lower("A B") == "a b";
    assert Lower("a-b") == "a-b";
    assert DropRun(" b") == "b";
    assert DropRun("-b") == "b";
    assert Slug("b") == "b";
    assert Slug("a b") == "a" + Slug(" b");
    assert Slug("a-b") == "a" + Slug("-b");
  }

  // ----- the content map -----

  datatype EntryType = TitleText | HeaderType | Description

  /** One value of the content map: `{type, content}`. */
  datatype Entry = Entry(kind: EntryType, content: string)

  function HeaderKey(id: string): string
  {
    "header-" + id
  }

  function DescriptionKey(id: string): string
  {
    "description-" + id
  }

  /** Header keys of different ids differ, as do description keys, and no header key is a description key. */
  lemma KeysDistinct(a: string, b: string)
    ensures HeaderKey(a) == HeaderKey(b) ==> a == b
    ensures DescriptionKey(a) == DescriptionKey(b) ==> a == b
    ensures HeaderKey(a) != DescriptionKey(b)
  {
    assert HeaderKey(a)[0] == 'h';
    assert DescriptionKey(b)[0] == 'd';
    if HeaderKey(a) == HeaderKey(b) {
      assert a == HeaderKey(a)[7..];
      assert b == HeaderKey(b)[7..];
    }
    if DescriptionKey(a) == DescriptionKey(b) {
      assert a == DescriptionKey(a)[12..];
      assert b == DescriptionKey(b)[12..];
    }
  }

  /** The entry type of a heading level: `titleText` for `#`, `header` for `##`. */
  function LevelType(level: nat): EntryType
  {
    if level == 1 then TitleText else HeaderType
  }

  /** The parsed section `h` writes `key`. */
  predicate Writes(h: Option<Heading>, key: string)
  {
    h.Some? && (key == HeaderKey(TitleId(h.value.title))
      || (h.value.content != [] && key == DescriptionKey(TitleId(h.value.title))))
  }

  /** What the parsed section `h` writes under `key`. */
  function Written(h: Option<Heading>, key: string): Entry
    requires Writes(h, key)
  {
    if key == HeaderKey(TitleId(h.value.title)) then Entry(LevelType(h.value.level), h.value.title)
    else Entry(Description, h.value.content)
  }

  /** The map after one parsed section, as the body of the `forEach` callback leaves it. */
  function Store(m: map<string, Entry>, h: Option<Heading>): map<string, Entry>
  {
    match h
    case None => m
    case Some(hd) =>
      var id := TitleId(hd.title);
      var m1 := m[HeaderKey(id) := Entry(LevelType(hd.level), hd.title)];
      if hd.content != [] then m1[DescriptionKey(id) := Entry(Description, hd.content)] else m1
  }

  /** The sections, each parsed. */
  function ParseAll(secs: seq<string>): (hs: seq<Option<Heading>>)
    ensures |hs| == |secs|
    ensures forall j :: 0 <= j < |secs| ==> hs[j] == ParseSection(secs[j])
  {
    seq(|secs|, j requires 0 <= j < |secs| => ParseSection(secs[j]))
  }

  /** The map after the parsed sections in order. */
  function Fold(hs: seq<Option<Heading>>): map<string, Entry>
  {
    if hs == [] then map[] else Store(Fold(hs[..|hs| - 1]), hs[|hs| - 1])
  }

  /** The map after the sections in order. */
  function ContentMap(secs: seq<string>): map<string, Entry>
  {
    Fold(ParseAll(secs))
  }

  /** One section changes exactly the keys it writes, to what it writes. */
  lemma StoreAt(m: map<string, Entry>, h: Option<Heading>, key: string)
    ensures key in Store(m, h) <==> key in m || Writes(h, key)
    ensures Writes(h, key) ==> Store(m, h)[key] == Written(h, key)
    ensures key in m && !Writes(h, key) ==> Store(m, h)[key] == m[key]
  {
    if h.Some? {
      var id := TitleId(h.value.title);
      KeysDistinct(id, id);
    }
  }

  /** A key is in the folded map exactly when some parsed section writes it. */
  lemma {:induction false} FoldKeys(hs: seq<Option<Heading>>, key: string)
    ensures key in Fold(hs) <==> exists j :: 0 <= j < |hs| && Writes(hs[j], key)
  {
    if hs != [] {
      var n := |hs| - 1;
      var init := hs[..n];
      FoldKeys(init, key);
      StoreAt(Fold(init), hs[n], key);
      if key in Fold(hs) {
        if key in Fold(init) {
          var j :| 0 <= j < |init| && Writes(init[j], key);
          assert hs[j] == init[j];
        } else {
          assert Writes(hs[n], key);
        }
      } else {
        forall j | 0 <= j < |hs| ensures !Writes(hs[j], key) {
          if j < n {
            assert init[j] == hs[j];
          }
        }
      }
    }
  }

  /** The last parsed section that writes a key decides its value. */
  lemma {:induction false} FoldLastWriter(hs: seq<Option<Heading>>, key: string, j: nat)
    requires j < |hs| && Writes(hs[j], key)
    requires forall k :: j < k < |hs| ==> !Writes(hs[k], key)
    ensures key in Fold(hs) && Fold(hs)[key] == Written(hs[j], key)
  {
    var n := |hs| - 1;
    var init := hs[..n];
    StoreAt(Fold(init), hs[n], key);
    if j < n {
      assert init[j] == hs[j];
      FoldLastWriter(init, key, j);
    }
  }

  /** A key is in the content map exactly when some section writes it. */
  lemma ContentMapKeys(secs: seq<string>, key: string)
    ensures key in ContentMap(secs) <==> exists j :: 0 <= j < |secs| && Writes(ParseSection(secs[j]), key)
  {
    var hs := ParseAll(secs);
    FoldKeys(hs, key);
    if key in ContentMap(secs) {
      var j :| 0 <= j < |hs| && Writes(hs[j], key);
      assert Writes(ParseSection(secs[j]), key);
    }
  }

  /**
   * The last section that writes a key decides its value: a later heading
   * with the same id replaces the header entry, and a description stays
   * until a later section with that id has a non-empty body.
   */
  lemma LastWriterWins(secs: seq<string>, key: string, j: nat)
    requires j < |secs| && Writes(ParseSection(secs[j]), key)
    requires forall k :: j < k < |secs| ==> !Writes(ParseSection(secs[k]), key)
    ensures key in ContentMap(secs) && ContentMap(secs)[key] == Written(ParseSection(secs[j]), key)
  {
    FoldLastWriter(ParseAll(secs), key, j);
  }

  /** A section that is not a heading, such as the text before the first heading, adds nothing. */
  lemma NonHeadingIgnored(m: map<string, Entry>, section: string)
    requires !MarkerAt(Trim(JavaScript, section), 0)
    ensures ParseSection(section) == None && Store(m, ParseSection(section)) == m
  {
    ParseSectionSpec(section);
  }

  /** `parseMarkdownContent(markdownString)`. */
  method ParseMarkdownContent(markdown: string) returns (contentMap: map<string, Entry>)
    ensures contentMap == ContentMap(Sections(markdown))
  {
    var sections := Sections(markdown);
    contentMap := map[];
    for i := 0 to |sections|
      invariant contentMap == Fold(ParseAll(sections[..i]))
    {
      assert ParseAll(sections[..i + 1])[..i] == ParseAll(sections[..i]);
      var h := ParseSection(sections[i]);
      if h.Some? {
        var id := TitleId(h.value.title);
        contentMap := contentMap[HeaderKey(id) := Entry(LevelType(h.value.level), h.value.title)];
        if h.value.content != [] {
          contentMap := contentMap[DescriptionKey(id) := Entry(Description, h.value.content)];
        }
      }
    }
    assert sections[..|sections|] == sections;
  }
}
