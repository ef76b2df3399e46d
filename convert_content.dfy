/**
 * The paired content scheme: a Markdown document becomes the `sceneContent`
 * object literal with a `title`, a `description-title-1` for the text under
 * the title, and one `header-i` / `description-i` pair per `## ` section,
 * numbered from 1, followed by two fixed navigation entries.
 */
module ConvertContent {
  import opened Strings
  import opened PyRegex

  const Prefix: string := "export const sceneContent = {\n"
  /** The two static navigation entries and the closing brace, always last. */
  const Closing: string :=
    "    \"return-to-story\": \"\U{2303}\",\n" + "    \"forward-to-story\": \"\U{2303}\"\n" + "};"

  /** The keys of the `output` dict; `KeyName` spells each one as the script does. */
  datatype Key = Title | TitleDescription | Header(i: nat) | Description(i: nat)

  function KeyName(k: Key): string
  {
    match k
    case Title => "title"
    case TitleDescription => "description-title-1"
    case Header(i) => "header-" + NatStr(i)
    case Description(i) => "description-" + NatStr(i)
  }

  /** Different keys are spelled differently, so a dict keyed by the spellings is a dict keyed by `Key`. */
  lemma KeyNameInjective(k: Key, k': Key)
    ensures KeyName(k) == KeyName(k') ==> k == k'
  {
    var a, b := KeyName(k), KeyName(k');
    assert a[0] == (if k.Header? then 'h' else if k.Title? then 't' else 'd');
    assert b[0] == (if k'.Header? then 'h' else if k'.Title? then 't' else 'd');
    assert k.TitleDescription? ==> a[12] == 't';
    assert k'.TitleDescription? ==> b[12] == 't';
    assert k.Description? ==> a[12] == NatStr(k.i)[0];
    assert k'.Description? ==> b[12] == NatStr(k'.i)[0];
    if k.Header? && k'.Header? {
      assert a[7..] == NatStr(k.i) && b[7..] == NatStr(k'.i);
      NatStrInjective(k.i, k'.i);
    }
    if k.Description? && k'.Description? {
      assert a[12..] == NatStr(k.i) && b[12..] == NatStr(k'.i);
      NatStrInjective(k.i, k'.i);
    }
  }

  // ----- the `output` dict (lines 9-27) -----

  /** The entries that lines 12-19 put into `output`. */
  function TitleMap(m: Matches): map<Key, string>
  {
    (if m.title.Some? then map[Title := Trim(Python, m.title.value)] else map[])
    + (if m.titleBody.Some? then map[TitleDescription := Trim(Python, m.titleBody.value)] else map[])
  }

  /** Each section's heading and body as the loop of lines 25-27 stores them: stripped. */
  function Stripped(secs: seq<(string, string)>): (ps: seq<(string, string)>)
    ensures |ps| == |secs|
    ensures forall i :: 0 <= i < |secs| ==> ps[i] == (Trim(Python, secs[i].0), Trim(Python, secs[i].1))
  {
    if secs == [] then []
    else Stripped(secs[..|secs| - 1]) + [(Trim(Python, secs[|secs| - 1].0), Trim(Python, secs[|secs| - 1].1))]
  }

  /** The dict `base` after the loop of lines 25-27 has stored the stripped sections `ps`. */
  function SectionMap(base: map<Key, string>, ps: seq<(string, string)>): map<Key, string>
  {
    if ps == [] then base
    else
      var n := |ps|;
      SectionMap(base, ps[..n - 1])[Header(n) := ps[n - 1].0][Description(n) := ps[n - 1].1]
  }

  function OutputMap(m: Matches): map<Key, string>
  {
    SectionMap(TitleMap(m), Stripped(m.sections))
  }

  /** The keys the script means `output` to hold: each title key whose search matched, both keys of sections 1..n. */
  predicate Expected(m: Matches, k: Key)
  {
    match k
    case Title => m.title.Some?
    case TitleDescription => m.titleBody.Some?
    case Header(i) => 1 <= i <= |m.sections|
    case Description(i) => 1 <= i <= |m.sections|
  }

  /** The stripped text each expected key is meant to hold. */
  function ExpectedValue(m: Matches, k: Key): string
    requires Expected(m, k)
  {
    match k
    case Title => Trim(Python, m.title.value)
    case TitleDescription => Trim(Python, m.titleBody.value)
    case Header(i) => Trim(Python, m.sections[i - 1].0)
    case Description(i) => Trim(Python, m.sections[i - 1].1)
  }

  /** Section `i` (from 1) has both of its keys, holding its heading and body; nothing else is there. */
  lemma {:induction false} SectionMapAt(base: map<Key, string>, ps: seq<(string, string)>, k: Key)
    requires forall k' :: k' in base ==> k'.Title? || k'.TitleDescription?
    ensures k in SectionMap(base, ps) <==> k in base || ((k.Header? || k.Description?) && 1 <= k.i <= |ps|)
    ensures k in base ==> SectionMap(base, ps)[k] == base[k]
    ensures k.Header? && 1 <= k.i <= |ps| ==> SectionMap(base, ps)[k] == ps[k.i - 1].0
    ensures k.Description? && 1 <= k.i <= |ps| ==> SectionMap(base, ps)[k] == ps[k.i - 1].1
  {
    if ps != [] {
      var n := |ps|;
      var init := ps[..n - 1];
      SectionMapAt(base, init, k);
      if (k.Header? || k.Description?) && 1 <= k.i < n {
        assert init[k.i - 1] == ps[k.i - 1];
      }
    }
  }

  /** `output` holds exactly the expected keys, each with its expected text. */
  lemma OutputMapAt(m: Matches, k: Key)
    ensures k in OutputMap(m) <==> Expected(m, k)
    ensures k in OutputMap(m) ==> OutputMap(m)[k] == ExpectedValue(m, k)
  {
    SectionMapAt(TitleMap(m), Stripped(m.sections), k);
  }

  /** The title description only exists when the text opens with the `# ` line. */
  lemma TitleDescriptionNeedsLeadingTitle(s: string)
    ensures TitleDescription in OutputMap(Match(s)) ==> StartsAt(s, 0, "# ")
  {
    OutputMapAt(Match(s), TitleDescription);
  }

  // ----- the emitted text (lines 30-58) -----

  datatype Quote = DoubleQuote | Backtick

  /** One `"key": value` line of the literal, with the quoting its value gets. */
  datatype Entry = Entry(key: Key, value: string, quote: Quote)

  /** A header or title is written verbatim between double quotes; a description between backticks, backslashes doubled. */
  function EntryText(e: Entry): string
  {
    match e.quote
    case DoubleQuote => "    \"" + KeyName(e.key) + "\": \"" + e.value + "\",\n"
    case Backtick => "    \"" + KeyName(e.key) + "\": `" + Escape(e.value) + "`,\n\n"
  }

  function EntriesText(es: seq<Entry>): string
  {
    if es == [] then [] else EntriesText(es[..|es| - 1]) + EntryText(es[|es| - 1])
  }

  /** The title and title-description entries, in the order lines 33-40 emit them. */
  function TitleEntries(m: Matches): seq<Entry>
  {
    (if m.title.Some? then [Entry(Title, Trim(Python, m.title.value), DoubleQuote)] else [])
    + (if m.titleBody.Some? then [Entry(TitleDescription, Trim(Python, m.titleBody.value), Backtick)] else [])
  }

  /** The header/description entry pairs of lines 43-52 for the stripped sections `ps`, section by section. */
  function SectionEntries(ps: seq<(string, string)>): seq<Entry>
  {
    if ps == [] then []
    else
      var n := |ps|;
      SectionEntries(ps[..n - 1])
        + [Entry(Header(n), ps[n - 1].0, DoubleQuote), Entry(Description(n), ps[n - 1].1, Backtick)]
  }

  /** Every entry of the literal, in emission order. */
  function Entries(m: Matches): seq<Entry>
  {
    TitleEntries(m) + SectionEntries(Stripped(m.sections))
  }

  /** The whole `contentForExport.js` text for the document `s`. */
  function SceneContentJs(s: string): string
  {
    Prefix + EntriesText(Entries(Match(s))) + Closing
  }

  lemma {:induction false} SectionEntriesLength(ps: seq<(string, string)>)
    ensures |SectionEntries(ps)| == 2 * |ps|
  {
    if ps != [] {
      SectionEntriesLength(ps[..|ps| - 1]);
    }
  }

  /** Where key `k` is written in the literal: title, title description, then header-i before description-i. */
  function KeyPos(m: Matches, k: Key): int
  {
    var off := |TitleEntries(m)|;
    match k
    case Title => 0
    case TitleDescription => off - 1
    case Header(i) => off + 2 * (i - 1)
    case Description(i) => off + 2 * (i - 1) + 1
  }

  /** The entry at position `j` of the section part is section `i`'s header (at 2(i-1)) or description (right after it). */
  lemma {:induction false} SectionEntryAt(ps: seq<(string, string)>, j: nat)
    requires j < 2 * |ps|
    ensures |SectionEntries(ps)| == 2 * |ps|
    ensures var e := SectionEntries(ps)[j];
      (e.key.Header? || e.key.Description?) && 1 <= e.key.i <= |ps|
      && (e.key.Header? ==> j == 2 * (e.key.i - 1) && e.value == ps[e.key.i - 1].0 && e.quote == DoubleQuote)
      && (e.key.Description? ==> j == 2 * (e.key.i - 1) + 1 && e.value == ps[e.key.i - 1].1 && e.quote == Backtick)
  {
    var n := |ps|;
    var init := ps[..n - 1];
    SectionEntriesLength(init);
    if j < 2 * (n - 1) {
      SectionEntryAt(init, j);
      var e := SectionEntries(ps)[j];
      assert e == SectionEntries(init)[j];
      assert init[e.key.i - 1] == ps[e.key.i - 1];
    }
  }

  /** The title entries are the matched title keys, each with the dict's value. */
  lemma TitleEntryAt(m: Matches, j: nat)
    requires j < |TitleEntries(m)|
    ensures var e := TitleEntries(m)[j];
      (e.key.Title? || e.key.TitleDescription?) && Expected(m, e.key) && e.value == ExpectedValue(m, e.key)
      && (e.quote == Backtick <==> e.key.TitleDescription?) && KeyPos(m, e.key) == j
  {
  }

  /** An entry after the title entries is a section key of the dict, holding its value, at its key's place. */
  lemma SectionsPartAt(titled: seq<Entry>, base: map<Key, string>, ps: seq<(string, string)>, j: nat)
    requires forall k' :: k' in base ==> k'.Title? || k'.TitleDescription?
    requires |titled| <= j < |titled| + 2 * |ps|
    ensures |SectionEntries(ps)| == 2 * |ps|
    ensures var e := (titled + SectionEntries(ps))[j];
      (e.key.Header? || e.key.Description?) && e.key in SectionMap(base, ps) && e.value == SectionMap(base, ps)[e.key]
      && (e.quote == Backtick <==> e.key.Description?)
      && j == |titled| + 2 * (e.key.i - 1) + (if e.key.Header? then 0 else 1)
  {
    SectionEntriesLength(ps);
    var e := (titled + SectionEntries(ps))[j];
    assert e == SectionEntries(ps)[j - |titled|];
    SectionEntryAt(ps, j - |titled|);
    SectionMapAt(base, ps, e.key);
  }

  /** An entry of the section part of the literal is a section key of the dict, at its key's place. */
  lemma SectionPartAt(m: Matches, j: nat)
    requires |TitleEntries(m)| <= j < |Entries(m)|
    ensures var e := Entries(m)[j];
      (e.key.Header? || e.key.Description?) && e.key in OutputMap(m) && e.value == OutputMap(m)[e.key]
      && (e.quote == Backtick <==> e.key.Description?) && KeyPos(m, e.key) == j
  {
    var ps := Stripped(m.sections);
    SectionEntriesLength(ps);
    SectionsPartAt(TitleEntries(m), TitleMap(m), ps, j);
  }

  /** An entry of the title part of the literal is a title key of the dict, at its key's place. */
  lemma TitlePartAt(m: Matches, j: nat)
    requires j < |TitleEntries(m)|
    ensures var e := Entries(m)[j];
      (e.key.Title? || e.key.TitleDescription?) && e.key in OutputMap(m) && e.value == OutputMap(m)[e.key]
      && (e.quote == Backtick <==> e.key.TitleDescription?) && KeyPos(m, e.key) == j
  {
    var e := Entries(m)[j];
    assert e == TitleEntries(m)[j];
    TitleEntryAt(m, j);
    SectionMapAt(TitleMap(m), Stripped(m.sections), e.key);
  }

  /** Every entry of the literal is a dict entry, quoted by its kind, at its key's place. */
  lemma EntryAt(m: Matches, j: nat)
    requires j < |Entries(m)|
    ensures var e := Entries(m)[j];
      e.key in OutputMap(m) && e.value == OutputMap(m)[e.key]
      && (e.quote == Backtick <==> e.key.TitleDescription? || e.key.Description?)
      && KeyPos(m, e.key) == j
  {
    if j < |TitleEntries(m)| {
      TitlePartAt(m, j);
    } else {
      SectionPartAt(m, j);
    }
  }

  /** Every key of the dict is written, at its place. */
  lemma KeyWritten(m: Matches, k: Key)
    requires k in OutputMap(m)
    ensures 0 <= KeyPos(m, k) < |Entries(m)| && Entries(m)[KeyPos(m, k)].key == k
  {
    var ps := Stripped(m.sections);
    var titled := TitleEntries(m);
    assert Entries(m) == titled + SectionEntries(ps);
    TitleMapKeys(m);
    SectionMapAt(TitleMap(m), ps, k);
    if k.Header? || k.Description? {
      SectionKeyWritten(titled, ps, k);
    } else {
      TitleKeyWritten(m, k);
      assert Entries(m)[KeyPos(m, k)] == titled[KeyPos(m, k)];
    }
  }

  /** A title key of the dict is written among the title entries, at its place. */
  lemma TitleKeyWritten(m: Matches, k: Key)
    requires k in TitleMap(m)
    ensures 0 <= KeyPos(m, k) < |TitleEntries(m)| && TitleEntries(m)[KeyPos(m, k)].key == k
  {
  }

  /** Section `i`'s keys sit at `2(i-1)` and `2(i-1) + 1` after the title entries. */
  lemma SectionKeyWritten(titled: seq<Entry>, ps: seq<(string, string)>, k: Key)
    requires (k.Header? || k.Description?) && 1 <= k.i <= |ps|
    ensures var p := |titled| + 2 * (k.i - 1) + (if k.Header? then 0 else 1);
      p < |titled + SectionEntries(ps)| && (titled + SectionEntries(ps))[p].key == k
  {
    var j := 2 * (k.i - 1) + (if k.Header? then 0 else 1);
    SectionEntriesLength(ps);
    SectionEntryAt(ps, j);
    assert (titled + SectionEntries(ps))[|titled| + j] == SectionEntries(ps)[j];
  }

  /**
   * The literal lists the `output` dict exactly: every entry is the dict's,
   * every key of the dict is written, and no key is written twice, not even
   * under the same spelling.
   */
  lemma EntriesListOutput(m: Matches)
    ensures forall j :: 0 <= j < |Entries(m)| ==>
      Entries(m)[j].key in OutputMap(m) && Entries(m)[j].value == OutputMap(m)[Entries(m)[j].key]
    ensures forall k :: k in OutputMap(m) ==> exists j :: 0 <= j < |Entries(m)| && Entries(m)[j].key == k
    ensures forall j, j' :: 0 <= j < j' < |Entries(m)| ==> KeyName(Entries(m)[j].key) != KeyName(Entries(m)[j'].key)
  {
    var es := Entries(m);
    forall j | 0 <= j < |es| ensures es[j].key in OutputMap(m) && es[j].value == OutputMap(m)[es[j].key] {
      EntryAt(m, j);
    }
    forall k | k in OutputMap(m) ensures exists j :: 0 <= j < |es| && es[j].key == k {
      KeyWritten(m, k);
    }
    forall j, j' | 0 <= j < j' < |es| ensures KeyName(es[j].key) != KeyName(es[j'].key) {
      EntryAt(m, j);
      EntryAt(m, j');
      KeyNameInjective(es[j].key, es[j'].key);
    }
  }

  /** Halving the doubled backslashes of a backtick literal gives back the stripped title body or section body. */
  lemma DescriptionRoundTrip(m: Matches, j: nat)
    requires j < |Entries(m)| && Entries(m)[j].quote == Backtick
    ensures Unescape(Escape(Entries(m)[j].value)) == Entries(m)[j].value
    ensures Entries(m)[j].key == TitleDescription ==>
      m.titleBody.Some? && Entries(m)[j].value == Trim(Python, m.titleBody.value)
    ensures Entries(m)[j].key.Description? ==>
      1 <= Entries(m)[j].key.i <= |m.sections|
      && Entries(m)[j].value == Trim(Python, m.sections[Entries(m)[j].key.i - 1].1)
  {
    EntryAt(m, j);
    OutputMapAt(m, Entries(m)[j].key);
    UnescapeEscape(Entries(m)[j].value);
  }

  // ----- the script itself -----

  /** Lines 9-27: filling the `output` dict from what the searches found. */
  method BuildOutput(m: Matches) returns (output: map<Key, string>)
    ensures output == OutputMap(m)
  {
    output := map[];
    if m.title.Some? {
      output := output[Title := Trim(Python, m.title.value)];
    }
    if m.titleBody.Some? {
      output := output[TitleDescription := Trim(Python, m.titleBody.value)];
    }
    var sections := m.sections;
    ghost var ps := Stripped(sections);
    assert ps[..0] == [];
    for i := 0 to |sections|
      invariant output == SectionMap(TitleMap(m), ps[..i])
    {
      assert ps[..i + 1][..i] == ps[..i];
      assert ps[..i + 1][i] == ps[i] == (Trim(Python, sections[i].0), Trim(Python, sections[i].1));
      output := output[Header(i + 1) := Trim(Python, sections[i].0)];
      output := output[Description(i + 1) := Trim(Python, sections[i].1)];
    }
    assert ps[..|sections|] == ps;
  }

  /** The title part of the literal: lines 33-40. */
  lemma TitleText(m: Matches)
    ensures EntriesText(TitleEntries(m)) ==
      (if m.title.Some? then EntryText(Entry(Title, Trim(Python, m.title.value), DoubleQuote)) else [])
      + (if m.titleBody.Some? then EntryText(Entry(TitleDescription, Trim(Python, m.titleBody.value), Backtick)) else [])
  {
    var t := TitleEntries(m);
    if t != [] {
      assert EntriesText(t[..1]) == EntryText(t[0]) by {
        assert t[..1][..0] == [];
      }
    }
    if |t| == 2 {
      assert t[..1] == [t[0]];
    }
  }

  /** One turn of the loop of lines 43-52 adds section `i + 1`'s header line and description line. */
  lemma SectionText(titled: seq<Entry>, ps: seq<(string, string)>, i: nat)
    requires i < |ps|
    ensures EntriesText(titled + SectionEntries(ps[..i + 1])) ==
      EntriesText(titled + SectionEntries(ps[..i]))
      + EntryText(Entry(Header(i + 1), ps[i].0, DoubleQuote))
      + EntryText(Entry(Description(i + 1), ps[i].1, Backtick))
  {
    var h := Entry(Header(i + 1), ps[i].0, DoubleQuote);
    var d := Entry(Description(i + 1), ps[i].1, Backtick);
    assert ps[..i + 1][..i] == ps[..i];
    var done := titled + SectionEntries(ps[..i]);
    assert titled + SectionEntries(ps[..i + 1]) == done + [h] + [d];
    assert (done + [h] + [d])[..|done| + 1] == done + [h];
  }

  /** One turn of the loop of lines 43-52: both keys of section `i + 1` are held, and the text grows by their lines. */
  lemma EmitStep(m: Matches, titled: seq<Entry>, ps: seq<(string, string)>, i: nat)
    requires titled == TitleEntries(m) && ps == Stripped(m.sections) && i < |ps|
    ensures Header(i + 1) in OutputMap(m) && OutputMap(m)[Header(i + 1)] == ps[i].0
    ensures Description(i + 1) in OutputMap(m) && OutputMap(m)[Description(i + 1)] == ps[i].1
    ensures EntriesText(titled + SectionEntries(ps[..i + 1])) ==
      EntriesText(titled + SectionEntries(ps[..i]))
      + EntryText(Entry(Header(i + 1), ps[i].0, DoubleQuote))
      + EntryText(Entry(Description(i + 1), ps[i].1, Backtick))
  {
    TitleMapKeys(m);
    SectionKeysAt(TitleMap(m), ps, i);
    SectionText(titled, ps, i);
  }

  lemma TitleMapKeys(m: Matches)
    ensures forall k' :: k' in TitleMap(m) ==> k'.Title? || k'.TitleDescription?
  {
  }

  /** Both keys of section `i + 1` hold its stripped heading and body. */
  lemma SectionKeysAt(base: map<Key, string>, ps: seq<(string, string)>, i: nat)
    requires forall k' :: k' in base ==> k'.Title? || k'.TitleDescription?
    requires i < |ps|
    ensures Header(i + 1) in SectionMap(base, ps) && SectionMap(base, ps)[Header(i + 1)] == ps[i].0
    ensures Description(i + 1) in SectionMap(base, ps) && SectionMap(base, ps)[Description(i + 1)] == ps[i].1
  {
    SectionMapAt(base, ps, Header(i + 1));
    SectionMapAt(base, ps, Description(i + 1));
  }

  /** Lines 33-40: the title line and the title description, when the dict has them. */
  method EmitTitleLines(m: Matches, output: map<Key, string>) returns (text: string)
    requires output == OutputMap(m)
    ensures text == EntriesText(TitleEntries(m))
  {
    OutputMapAt(m, Title);
    OutputMapAt(m, TitleDescription);
    TitleText(m);
    text := [];
    if Title in output {
      text := text + EntryText(Entry(Title, output[Title], DoubleQuote));
    }
    if TitleDescription in output {
      text := text + EntryText(Entry(TitleDescription, output[TitleDescription], Backtick));
    }
  }

  /** Lines 43-52: after the title lines, the header line and the description line of every section, in order. */
  method EmitSectionLines(m: Matches, output: map<Key, string>, titleLines: string) returns (text: string)
    requires output == OutputMap(m)
    requires titleLines == EntriesText(TitleEntries(m))
    ensures text == EntriesText(Entries(m))
  {
    var titled := TitleEntries(m);
    ghost var ps := Stripped(m.sections);
    assert titled + SectionEntries(ps[..0]) == titled;
    text := titleLines;
    for i := 0 to |m.sections|
      invariant text == EntriesText(titled + SectionEntries(ps[..i]))
    {
      EmitStep(m, titled, ps, i);
      if Header(i + 1) in output {
        text := text + EntryText(Entry(Header(i + 1), output[Header(i + 1)], DoubleQuote));
      }
      if Description(i + 1) in output {
        text := text + EntryText(Entry(Description(i + 1), output[Description(i + 1)], Backtick));
      }
    }
    assert ps[..|m.sections|] == ps;
  }

  /** Lines 30-58: writing the literal from the dict, in the fixed key order. */
  method EmitJs(m: Matches, output: map<Key, string>) returns (js: string)
    requires output == OutputMap(m)
    ensures js == Prefix + EntriesText(Entries(m)) + Closing
  {
    var titleLines := EmitTitleLines(m, output);
    var lines := EmitSectionLines(m, output, titleLines);
    js := Prefix + lines + Closing;
  }

  method ConvertMdToJs(content: string) returns (js: string)
    ensures js == SceneContentJs(content)
  {
    var m := Matches(FirstTitle(content), TitleBody(content), Sections(content));
    var output := BuildOutput(m);
    js := EmitJs(m, output);
  }
}
