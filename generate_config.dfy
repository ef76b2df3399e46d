/**
 * `generate_scene_config` of the paired content scheme: from a content map
 * it builds the timeline of scene records. With T = the number of
 * `header-` keys plus one and D = 1/T, the title (and `description-title`)
 * run over [0, D] and `header-i` and `description-i` over [i*D, (i+1)*D]
 * for i = 1 .. T-1. Times are exact reals.
 */
module GenerateConfig {
  import opened Strings

  /** The `type` field of a record: `titleText`, `header` or `description`. */
  datatype SceneType = TitleText | HeaderType | DescriptionType

  /**
   * A point of the timeline. The script computes `i * SCENE_DURATION` with
   * `SCENE_DURATION = 1 / T`; over exact numbers that is the fraction i/T,
   * kept here as its numerator and denominator.
   */
  datatype Time = Time(num: nat, den: nat)

  /** The value of a time point as a real number: `num * (1 / den)`. */
  function Value(t: Time): real
    requires t.den > 0
  {
    (t.num as real) * (1.0 / (t.den as real))
  }

  /** One record of the config list: its id, type and content, and `entry_from.at` / `exit_to.at`. */
  datatype Record = Record(id: string, kind: SceneType, content: string, entryAt: Time, exitAt: Time)

  function HeaderKey(i: nat): string
  {
    "header-" + NatStr(i)
  }

  function DescriptionKey(i: nat): string
  {
    "description-" + NatStr(i)
  }

  /** Line 24: the keys that start with `header-`. */
  function HeaderKeys(content: map<string, string>): set<string>
  {
    set k | k in content.Keys && StartsAt(k, 0, "header-")
  }

  /** Line 24: one scene per `header-` key, plus the title scene; never zero, so line 25 cannot divide by zero. */
  function TotalScenes(content: map<string, string>): (n: nat)
    ensures n >= 1
  {
    |HeaderKeys(content)| + 1
  }

  /** Line 25: every scene lasts the same share 1/T of the unit interval. */
  lemma SceneDurationPositive(content: map<string, string>)
    ensures 0.0 < Value(Time(1, TotalScenes(content))) <= 1.0
  {
  }

  /** Lines 31-60: the title record and, only when there is a title, the `description-title` record. */
  function TitleRecords(content: map<string, string>, t: nat): seq<Record>
  {
    if "title" in content then
      [Record("title", TitleText, content["title"], Time(0, t), Time(1, t))]
      + (if "description-title" in content
         then [Record("description-title", DescriptionType, content["description-title"], Time(0, t), Time(1, t))]
         else [])
    else []
  }

  function HeaderRecord(content: map<string, string>, t: nat, i: nat): Record
    requires HeaderKey(i) in content
  {
    Record(HeaderKey(i), HeaderType, content[HeaderKey(i)], Time(i, t), Time(i + 1, t))
  }

  function DescriptionRecord(content: map<string, string>, t: nat, i: nat): Record
    requires DescriptionKey(i) in content
  {
    Record(DescriptionKey(i), DescriptionType, content[DescriptionKey(i)], Time(i, t), Time(i + 1, t))
  }

  /** Lines 64-95 for one `i`: the header record, then the description record, each when its key exists. */
  function SceneRecords(content: map<string, string>, t: nat, i: nat): seq<Record>
  {
    (if HeaderKey(i) in content then [HeaderRecord(content, t, i)] else [])
    + (if DescriptionKey(i) in content then [DescriptionRecord(content, t, i)] else [])
  }

  /** The records of scenes 1 .. k-1. */
  function Numbered(content: map<string, string>, t: nat, k: nat): seq<Record>
  {
    if k <= 1 then [] else Numbered(content, t, k - 1) + SceneRecords(content, t, k - 1)
  }

  /** The list `generate_scene_config` returns. */
  function Config(content: map<string, string>): seq<Record>
  {
    var t := TotalScenes(content);
    TitleRecords(content, t) + Numbered(content, t, t)
  }

  /** Lines 31-60: the title record, then the `description-title` record, each when its key exists. */
  method AddTitleScenes(content: map<string, string>, totalScenes: nat) returns (config: seq<Record>)
    ensures config == TitleRecords(content, totalScenes)
  {
    var sceneDuration := Time(1, totalScenes);
    config := [];
    if "title" in content {
      config := config + [Record("title", TitleText, content["title"], Time(0, totalScenes), sceneDuration)];
      if "description-title" in content {
        config := config + [Record("description-title", DescriptionType, content["description-title"], Time(0, totalScenes), sceneDuration)];
      }
    }
  }

  /** Lines 64-95 for one `i`: the records of `header-i` and `description-i`, both over [i*D, (i+1)*D]. */
  method SceneConfig(content: map<string, string>, totalScenes: nat, i: nat) returns (scene: seq<Record>)
    ensures scene == SceneRecords(content, totalScenes, i)
  {
    var headerKey := "header-" + NatStr(i);
    var descKey := "description-" + NatStr(i);
    var entryAt := Time(i, totalScenes);
    var exitAt := Time(i + 1, totalScenes);
    scene := [];
    if headerKey in content {
      scene := scene + [Record(headerKey, HeaderType, content[headerKey], entryAt, exitAt)];
    }
    if descKey in content {
      scene := scene + [Record(descKey, DescriptionType, content[descKey], entryAt, exitAt)];
    }
  }

  /** Lines 19-101 without the file I/O: the content map is the argument. */
  method GenerateSceneConfig(content: map<string, string>) returns (config: seq<Record>)
    ensures config == Config(content)
  {
    var totalScenes := |HeaderKeys(content)| + 1;
    config := AddTitleScenes(content, totalScenes);
    ghost var titled := config;
    for i := 1 to totalScenes
      invariant config == titled + Numbered(content, totalScenes, i)
    {
      var scene := SceneConfig(content, totalScenes, i);
      NumberedStep(content, totalScenes, i, titled, scene);
      config := config + scene;
    }
  }

  /** One turn of the loop of lines 63-95 appends the records of scene `i`. */
  lemma NumberedStep(content: map<string, string>, t: nat, i: nat, titled: seq<Record>, scene: seq<Record>)
    requires i >= 1 && scene == SceneRecords(content, t, i)
    ensures titled + Numbered(content, t, i + 1) == (titled + Numbered(content, t, i)) + scene
  {
    assert Numbered(content, t, i + 1) == Numbered(content, t, i) + scene;
  }

  // ----- properties of the timeline -----

  /** Record `r` is the record of scene `i`: its header or its description. */
  predicate RecordOfScene(content: map<string, string>, t: nat, i: nat, r: Record)
  {
    (HeaderKey(i) in content && r == HeaderRecord(content, t, i))
    || (DescriptionKey(i) in content && r == DescriptionRecord(content, t, i))
  }

  /** Every numbered record belongs to a scene between 1 and k-1. */
  lemma {:induction false} NumberedAt(content: map<string, string>, t: nat, k: nat, j: nat)
    requires j < |Numbered(content, t, k)|
    ensures exists i :: 1 <= i < k && RecordOfScene(content, t, i, Numbered(content, t, k)[j])
  {
    var prev := Numbered(content, t, k - 1);
    var rs := Numbered(content, t, k);
    if j < |prev| {
      NumberedAt(content, t, k - 1, j);
      assert rs[j] == prev[j];
      var i :| 1 <= i < k - 1 && RecordOfScene(content, t, i, prev[j]);
      assert RecordOfScene(content, t, i, rs[j]);
    } else {
      assert rs[j] == SceneRecords(content, t, k - 1)[j - |prev|];
      assert RecordOfScene(content, t, k - 1, rs[j]);
    }
  }

  /** Every present `header-i` and `description-i` with 1 <= i < k has its record. */
  lemma {:induction false} NumberedComplete(content: map<string, string>, t: nat, k: nat, i: nat)
    requires 1 <= i < k
    ensures HeaderKey(i) in content ==> HeaderRecord(content, t, i) in Numbered(content, t, k)
    ensures DescriptionKey(i) in content ==> DescriptionRecord(content, t, i) in Numbered(content, t, k)
  {
    var prev := Numbered(content, t, k - 1);
    var rs := Numbered(content, t, k);
    assert rs == prev + SceneRecords(content, t, k - 1);
    if i < k - 1 {
      NumberedComplete(content, t, k - 1, i);
    }
  }

  /**
   * The records run in order of their start times, and of two records that
   * start together the header comes first and the description second.
   */
  lemma {:induction false} NumberedSorted(content: map<string, string>, t: nat, k: nat, j: nat, j': nat)
    requires j < j' < |Numbered(content, t, k)|
    ensures Numbered(content, t, k)[j].entryAt.num <= Numbered(content, t, k)[j'].entryAt.num
    ensures Numbered(content, t, k)[j].entryAt == Numbered(content, t, k)[j'].entryAt ==>
      Numbered(content, t, k)[j].kind == HeaderType && Numbered(content, t, k)[j'].kind == DescriptionType
  {
    var prev := Numbered(content, t, k - 1);
    var rs := Numbered(content, t, k);
    var here := SceneRecords(content, t, k - 1);
    if j' < |prev| {
      NumberedSorted(content, t, k - 1, j, j');
      assert rs[j] == prev[j] && rs[j'] == prev[j'];
    } else {
      SceneRecordsShape(content, t, k - 1, j' - |prev|);
      assert rs[j'] == here[j' - |prev|];
      if j < |prev| {
        NumberedAt(content, t, k - 1, j);
        assert rs[j] == prev[j];
        var i :| 1 <= i < k - 1 && RecordOfScene(content, t, i, prev[j]);
        assert rs[j].entryAt.num == i;
      } else {
        SceneRecordsShape(content, t, k - 1, j - |prev|);
        assert rs[j] == here[j - |prev|];
      }
    }
  }

  /** The records of one scene start together; the header, when present, comes first. */
  lemma SceneRecordsShape(content: map<string, string>, t: nat, i: nat, j: nat)
    requires j < |SceneRecords(content, t, i)|
    ensures SceneRecords(content, t, i)[j].entryAt == Time(i, t)
    ensures SceneRecords(content, t, i)[j].kind == (if j == 0 && HeaderKey(i) in content then HeaderType else DescriptionType)
  {
  }

  /** The script's `i * SCENE_DURATION` is the fraction i/T; the last exit, T/T, is 1. */
  lemma TimeValue(i: nat, t: nat)
    requires t >= 1
    ensures Value(Time(i, t)) == (i as real) * Value(Time(1, t))
    ensures i <= t ==> 0.0 <= Value(Time(i, t)) <= 1.0
    ensures Value(Time(t, t)) == 1.0
  {
    var d := 1.0 / (t as real);
    assert (t as real) * d == 1.0;
    if i <= t {
      assert (i as real) * d <= (t as real) * d;
    }
  }

  /**
   * Every record starts at some i/T and ends at (i+1)/T with i+1 <= T, so it
   * lies inside [0, 1] and lasts one scene; it carries the content of its own key.
   */
  lemma ConfigRecordBounds(content: map<string, string>, j: nat)
    requires j < |Config(content)|
    ensures var r := Config(content)[j];
      r.entryAt.den == r.exitAt.den == TotalScenes(content)
      && r.exitAt.num == r.entryAt.num + 1 <= TotalScenes(content)
      && r.id in content && r.content == content[r.id]
  {
    var t := TotalScenes(content);
    var titled := TitleRecords(content, t);
    var r := Config(content)[j];
    if j >= |titled| {
      assert r == Numbered(content, t, t)[j - |titled|];
      NumberedAt(content, t, t, j - |titled|);
      var i :| 1 <= i < t && RecordOfScene(content, t, i, r);
    } else {
      assert r == titled[j];
    }
  }

  /** The whole list runs in order of start times: the title scene's records first, then scene by scene. */
  lemma ConfigSorted(content: map<string, string>, j: nat, j': nat)
    requires j < j' < |Config(content)|
    ensures Config(content)[j].entryAt.num <= Config(content)[j'].entryAt.num
    ensures Config(content)[j].entryAt.den == Config(content)[j'].entryAt.den == TotalScenes(content)
    ensures Value(Config(content)[j].entryAt) <= Value(Config(content)[j'].entryAt)
  {
    ConfigRecordBounds(content, j);
    ConfigRecordBounds(content, j');
    ConfigSortedNum(content, j, j');
    TimeMonotone(Config(content)[j].entryAt.num, Config(content)[j'].entryAt.num, TotalScenes(content));
  }

  /** Time points over one denominator are ordered as their numerators. */
  lemma TimeMonotone(m: nat, n: nat, t: nat)
    requires t >= 1 && m <= n
    ensures Value(Time(m, t)) <= Value(Time(n, t))
  {
    var d := 1.0 / (t as real);
    assert d > 0.0;
    assert (n as real) * d - (m as real) * d == ((n - m) as real) * d;
  }

  lemma ConfigSortedNum(content: map<string, string>, j: nat, j': nat)
    requires j < j' < |Config(content)|
    ensures Config(content)[j].entryAt.num <= Config(content)[j'].entryAt.num
  {
    var t := TotalScenes(content);
    var titled := TitleRecords(content, t);
    var numbered := Numbered(content, t, t);
    if j' < |titled| {
      assert Config(content)[j] == titled[j] && Config(content)[j'] == titled[j'];
    } else {
      assert Config(content)[j'] == numbered[j' - |titled|];
      if j < |titled| {
        assert Config(content)[j] == titled[j];
      } else {
        assert Config(content)[j] == numbered[j - |titled|];
        NumberedSorted(content, t, t, j - |titled|, j' - |titled|);
      }
    }
  }

  /** Exactly the title and its description start at 0; every other record starts at a later scene. */
  lemma TitleSceneAtZero(content: map<string, string>, j: nat)
    requires j < |Config(content)|
    ensures Config(content)[j].entryAt.num == 0
      <==> Config(content)[j].id == "title" || Config(content)[j].id == "description-title"
  {
    var t := TotalScenes(content);
    var titled := TitleRecords(content, t);
    var r := Config(content)[j];
    if j >= |titled| {
      assert r == Numbered(content, t, t)[j - |titled|];
      NumberedAt(content, t, t, j - |titled|);
      var i :| 1 <= i < t && RecordOfScene(content, t, i, r);
      SceneRecordNotTitle(content, t, i, r);
    } else {
      assert r == titled[j];
    }
  }

  /** A record of scene i >= 1 starts at i and carries neither title id. */
  lemma SceneRecordNotTitle(content: map<string, string>, t: nat, i: nat, r: Record)
    requires i >= 1 && RecordOfScene(content, t, i, r)
    ensures r.entryAt.num == i && r.id != "title" && r.id != "description-title"
  {
    if HeaderKey(i) in content && r == HeaderRecord(content, t, i) {
      assert r.id[0] == 'h';
    } else {
      assert r.id == DescriptionKey(i);
      assert r.id[12] == NatStr(i)[0];
      assert "description-title"[12] == 't';
    }
  }

  /** Consecutive scenes are contiguous: every record of scene i+1 starts exactly when every record of scene i ends. */
  lemma ScenesContiguous(content: map<string, string>, j: nat, j': nat)
    requires j < |Config(content)| && j' < |Config(content)|
    requires Config(content)[j'].entryAt.num == Config(content)[j].entryAt.num + 1
    ensures Config(content)[j].exitAt == Config(content)[j'].entryAt
  {
    ConfigRecordBounds(content, j);
    ConfigRecordBounds(content, j');
  }

  /** A header and its description run simultaneously. */
  lemma HeaderAndDescriptionSimultaneous(content: map<string, string>, i: nat)
    requires HeaderKey(i) in content && DescriptionKey(i) in content
    ensures HeaderRecord(content, TotalScenes(content), i).entryAt
      == DescriptionRecord(content, TotalScenes(content), i).entryAt
    ensures HeaderRecord(content, TotalScenes(content), i).exitAt
      == DescriptionRecord(content, TotalScenes(content), i).exitAt
  {
  }

  /** The title comes first, over [0, D], whenever the map has one. */
  lemma TitleFirst(content: map<string, string>)
    requires "title" in content
    ensures Config(content)[0] == Record("title", TitleText, content["title"], Time(0, TotalScenes(content)), Time(1, TotalScenes(content)))
  {
  }

  /** The id of every record is `title`, `description-title`, or `header-i` / `description-i` with 1 <= i < T. */
  predicate ScheduledId(content: map<string, string>, id: string)
  {
    id == "title" || id == "description-title"
    || exists i :: 1 <= i < TotalScenes(content) && (id == HeaderKey(i) || id == DescriptionKey(i))
  }

  lemma ConfigIds(content: map<string, string>, j: nat)
    requires j < |Config(content)|
    ensures ScheduledId(content, Config(content)[j].id)
  {
    var t := TotalScenes(content);
    var titled := TitleRecords(content, t);
    if j >= |titled| {
      var r := Config(content)[j];
      assert r == Numbered(content, t, t)[j - |titled|];
      NumberedAt(content, t, t, j - |titled|);
      var i :| 1 <= i < t && RecordOfScene(content, t, i, r);
    } else {
      assert Config(content)[j] == titled[j];
    }
  }

  /**
   * The paired converter names the title's description `description-title-1`;
   * no record ever carries that id, so that text is never scheduled.
   */
  lemma TitleDescriptionOneNeverScheduled(content: map<string, string>, j: nat)
    requires j < |Config(content)|
    ensures Config(content)[j].id != "description-title-1"
  {
    ConfigIds(content, j);
    forall i: nat
      ensures HeaderKey(i) != "description-title-1" && DescriptionKey(i) != "description-title-1"
    {
      assert HeaderKey(i)[0] == 'h';
      assert DescriptionKey(i)[12] == NatStr(i)[0];
    }
  }

  /** `header-0` (the segment scheme's title key) is never scheduled either. */
  lemma HeaderZeroNeverScheduled(content: map<string, string>, j: nat)
    requires j < |Config(content)|
    ensures Config(content)[j].id != "header-0"
  {
    ConfigIds(content, j);
    forall i: nat | 1 <= i
      ensures HeaderKey(i) != "header-0" && DescriptionKey(i) != "header-0"
    {
      assert DescriptionKey(i)[0] == 'd';
      assert HeaderKey(i)[7..] == NatStr(i);
      assert "header-0"[7..] == NatStr(0);
      NatStrInjective(i, 0);
    }
  }
}
