/** Topic names, topic filters and the two matchers (section 4.7 of MQTT 3.1.1, section 4.8.2 of MQTT 5.0). */
module Topics {
  import opened Basics

  type Levels = seq<string>

  // ---------- levels of a topic ----------

  /** The levels of a topic: the text between the '/' separators. */
  function Split(s: string): (levels: Levels)
    ensures |levels| >= 1
    ensures forall i :: 0 <= i < |levels| ==> '/' !in levels[i]
  {
    if s == "" then [""]
    else
      var rest := Split(s[1..]);
      if s[0] == '/' then [""] + rest else [[s[0]] + rest[0]] + rest[1..]
  }

  function Join(levels: Levels): string
    requires |levels| >= 1
  {
    if |levels| == 1 then levels[0] else levels[0] + "/" + Join(levels[1..])
  }

  ghost predicate WellSplit(levels: Levels) {
    |levels| >= 1 && forall i :: 0 <= i < |levels| ==> '/' !in levels[i]
  }

  lemma {:induction false} JoinSplit(s: string)
    ensures Join(Split(s)) == s
  {
    if s != "" {
      var rest := Split(s[1..]);
      JoinSplit(s[1..]);
      if s[0] == '/' {
        assert ([""] + rest)[1..] == rest;
        assert Join([""] + rest) == "" + "/" + Join(rest);
      } else {
        var levels := [[s[0]] + rest[0]] + rest[1..];
        assert levels[1..] == rest[1..];
        if |rest| > 1 {
          assert Join(levels) == [s[0]] + (rest[0] + "/" + Join(rest[1..]));
        }
      }
    }
  }

  lemma {:induction false} SplitOneLevel(level: string)
    requires '/' !in level
    ensures Split(level) == [level]
  {
    if level != "" {
      SplitOneLevel(level[1..]);
      assert [level[0]] + level[1..] == level;
    }
  }

  lemma {:induction false} SplitAfterLevel(level: string, s: string)
    requires '/' !in level
    ensures Split(level + "/" + s) == [level] + Split(s)
  {
    if level == "" {
      assert (level + "/" + s)[1..] == s;
    } else {
      SplitAfterLevel(level[1..], s);
      assert (level + "/" + s)[1..] == level[1..] + "/" + s;
      assert [level[0]] + level[1..] == level;
    }
  }

  lemma {:induction false} SplitJoin(levels: Levels)
    requires WellSplit(levels)
    ensures Split(Join(levels)) == levels
  {
    if |levels| == 1 {
      SplitOneLevel(levels[0]);
    } else {
      SplitJoin(levels[1..]);
      SplitAfterLevel(levels[0], Join(levels[1..]));
    }
  }

  // ---------- filters ----------

  datatype FilterError = EmptyFilter | InvalidHash | HashNotLast | InvalidPlus

  const SHARE_PREFIX := "$share"

  /** What is wrong with level `i` of a filter, if anything; '#' is looked at before '+'. */
  function LevelFault(levels: Levels, i: nat): Option<FilterError>
    requires i < |levels|
  {
    var level := levels[i];
    if '#' in level && level != "#" then Some(InvalidHash)
    else if level == "#" && i != |levels| - 1 then Some(HashNotLast)
    else if '+' in level && level != "+" then Some(InvalidPlus)
    else None
  }

  /** '#' and '+' stand alone in their level, and '#' only in the last level. */
  predicate ValidLevels(levels: Levels) {
    forall i :: 0 <= i < |levels| ==>
      && ('#' in levels[i] ==> levels[i] == "#" && i == |levels| - 1)
      && ('+' in levels[i] ==> levels[i] == "+")
  }

  predicate ValidFilter(filter: string) {
    filter != "" && ValidLevels(Split(filter))
  }

  method ValidateFilter(filter: string) returns (r: Result<(), FilterError>)
    ensures r.Ok? <==> ValidFilter(filter)
    ensures r.Err? && filter == "" ==> r.error == EmptyFilter
    ensures r.Err? && filter != "" ==>
              exists i :: 0 <= i < |Split(filter)| && LevelFault(Split(filter), i) == Some(r.error)
                          && forall k :: 0 <= k < i ==> LevelFault(Split(filter), k) == None
  {
    if filter == "" {
      return Err(EmptyFilter);
    }
    var levels := Split(filter);
    for i := 0 to |levels|
      invariant forall k :: 0 <= k < i ==> LevelFault(levels, k) == None
    {
      var level := levels[i];
      if '#' in level && level != "#" {
        assert LevelFault(levels, i) == Some(InvalidHash);
        return Err(InvalidHash);
      }
      if level == "#" && i != |levels| - 1 {
        assert level[0] == '#';
        assert LevelFault(levels, i) == Some(HashNotLast);
        return Err(HashNotLast);
      }
      if '+' in level && level != "+" {
        assert LevelFault(levels, i) == Some(InvalidPlus);
        return Err(InvalidPlus);
      }
    }
    forall i | 0 <= i < |levels|
      ensures '#' in levels[i] ==> levels[i] == "#" && i == |levels| - 1
      ensures '+' in levels[i] ==> levels[i] == "+"
    {
      assert LevelFault(levels, i) == None;
    }
    r := Ok(());
  }

  /** `$share/{group}/{filter}`: the text is cut at its first two separators. */
  function ParseShared(filter: string): Option<(string, string)> {
    var levels := Split(filter);
    if |levels| >= 3 && levels[0] == SHARE_PREFIX && levels[1] != ""
    then Some((levels[1], Join(levels[2..])))
    else None
  }

  function SharedName(group: string, filter: string): string {
    SHARE_PREFIX + "/" + (group + "/" + filter)
  }

  predicate ValidGroup(group: string) {
    group != "" && '/' !in group
  }

  /** Naming and parsing a shared filter are inverse to each other. */
  lemma ParseSharedInverse(filter: string, group: string, inner: string)
    ensures ParseShared(filter) == Some((group, inner)) <==>
            group != "" && '/' !in group && filter == "$share/" + group + "/" + inner
    ensures SharedName(group, inner) == "$share/" + group + "/" + inner
  {
    assert SharedName(group, inner) == "$share/" + group + "/" + inner;
    if ValidGroup(group) && filter == SharedName(group, inner) {
      SplitAfterLevel(SHARE_PREFIX, group + "/" + inner);
      SplitAfterLevel(group, inner);
      JoinSplit(inner);
      assert Split(filter) == [SHARE_PREFIX, group] + Split(inner);
      assert Split(filter)[2..] == Split(inner);
    }
    if ParseShared(filter) == Some((group, inner)) {
      var levels := Split(filter);
      JoinSplit(filter);
      assert Join(levels[1..]) == levels[1] + "/" + Join(levels[1..][1..]);
      assert levels[1..][1..] == levels[2..];
    }
  }

  // ---------- matching ----------

  predicate LevelMatches(f: string, t: string) {
    f == "+" || f == t
  }

  /** The index of the first '#' level, or the number of levels. */
  function FirstHash(fs: Levels): (h: nat)
    ensures h <= |fs| && (h < |fs| ==> fs[h] == "#")
    ensures forall i :: 0 <= i < h ==> fs[i] != "#"
  {
    if fs == [] || fs[0] == "#" then 0 else 1 + FirstHash(fs[1..])
  }

  /**
   * Level-by-level matching. Without '#', filter and topic have the same number of levels and agree at each.
   * With '#', the levels before it agree and it stands for the rest, which may be empty when '#' is the last level.
   */
  predicate MatchesLevels(ts: Levels, fs: Levels) {
    var h := FirstHash(fs);
    && (if h == |fs| then |ts| == h else |ts| > h || (|ts| == h && h == |fs| - 1))
    && forall i :: 0 <= i < h ==> LevelMatches(fs[i], ts[i])
  }

  predicate TopicMatches(topic: string, filter: string) {
    topic != "" && filter != "" && MatchesLevels(Split(topic), Split(filter))
  }

  /** The two-pointer matcher used for retained and shared subscriptions. */
  method TopicMatchesFilter(topic: string, filter: string) returns (r: bool)
    ensures r == TopicMatches(topic, filter)
  {
    if topic == "" || filter == "" {
      return false;
    }
    var ts := Split(topic);
    var fs := Split(filter);
    var ti, fi := 0, 0;
    while ti < |ts| && fi < |fs|
      invariant 0 <= ti == fi <= |ts| && fi <= FirstHash(fs)
      invariant forall i :: 0 <= i < fi ==> LevelMatches(fs[i], ts[i])
    {
      var f := fs[fi];
      if f == "#" {
        return true;
      }
      if f == "+" || f == ts[ti] {
        ti := ti + 1;
        fi := fi + 1;
        continue;
      }
      return false;
    }
    if ti == |ts| {
      if fi == |fs| {
        return true;
      }
      if fi == |fs| - 1 && fs[fi] == "#" {
        return true;
      }
    }
    return false;
  }

  /** Matching as the subscription tree walks it: one level of the filter per level of the tree. */
  predicate WalkMatches(ts: Levels, fs: Levels) {
    if fs == ["#"] then true
    else if ts == [] || fs == [] then ts == fs
    else fs[0] != "#" && LevelMatches(fs[0], ts[0]) && WalkMatches(ts[1..], fs[1..])
  }

  /** On every filter that passes validation, the tree walk and the two-pointer matcher agree. */
  lemma {:induction false} WalkAgrees(ts: Levels, fs: Levels)
    requires ValidLevels(fs)
    ensures WalkMatches(ts, fs) <==> MatchesLevels(ts, fs)
  {
    if fs == ["#"] || ts == [] || fs == [] {
    } else {
      assert forall i :: 0 <= i < |fs[1..]| ==> fs[1..][i] == fs[i + 1];
      WalkAgrees(ts[1..], fs[1..]);
      if fs[0] != "#" {
        assert FirstHash(fs) == 1 + FirstHash(fs[1..]);
        if MatchesLevels(ts, fs) {
          assert forall i :: 0 <= i < FirstHash(fs[1..]) ==> LevelMatches(fs[1..][i], ts[1..][i]);
        }
        if LevelMatches(fs[0], ts[0]) && MatchesLevels(ts[1..], fs[1..]) {
          forall i | 0 <= i < FirstHash(fs) ensures LevelMatches(fs[i], ts[i]) {
            if i > 0 {
              assert LevelMatches(fs[1..][i - 1], ts[1..][i - 1]);
            }
          }
        }
      }
    }
  }
}
