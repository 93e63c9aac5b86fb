/**
 * The mod's skill summary, `"Name=level,Name=level"`, and the "peak skills"
 * a death message shows. A parsed summary is an association list that keeps
 * Python's dict insertion order (a repeated name keeps its first position and
 * takes the later level); a player record stores it as a map.
 */
module Skills {
  import opened Util
  import opened Text
  import Ranking

  /** Why `parse_skills_string` raises: a piece with more than one `=` cannot be
      unpacked into name and level, or the level is not an integer. */
  datatype SkillError = TooManyFields(pair: string) | NotAnInteger(text: string)

  type SkillList = seq<(string, int)>

  predicate HasName(al: SkillList, name: string)
  {
    exists i :: 0 <= i < |al| && al[i].0 == name
  }

  ghost predicate DistinctNames(al: SkillList)
  {
    forall i, j :: 0 <= i < j < |al| ==> al[i].0 != al[j].0
  }

  /** `skills[name] = level` on an insertion-ordered dict. */
  function Put(al: SkillList, name: string, level: int): (r: SkillList)
    requires DistinctNames(al)
    ensures DistinctNames(r)
    ensures HasName(al, name) ==> |r| == |al| && forall i :: 0 <= i < |al| ==> r[i] == (if al[i].0 == name then (name, level) else al[i])
    ensures !HasName(al, name) ==> r == al + [(name, level)]
  {
    if al == [] then [(name, level)]
    else if al[0].0 == name then [(name, level)] + al[1..]
    else
      var tail := Put(al[1..], name, level);
      PutCons(al[0], al[1..], name, level, tail);
      assert al == [al[0]] + al[1..];
      [al[0]] + tail
  }

  /** `Put` past a first entry with another name. */
  lemma PutCons(head: (string, int), rest: SkillList, name: string, level: int, tail: SkillList)
    requires DistinctNames([head] + rest) && head.0 != name && DistinctNames(tail)
    requires HasName(rest, name) ==> |tail| == |rest| && forall i :: 0 <= i < |rest| ==> tail[i] == (if rest[i].0 == name then (name, level) else rest[i])
    requires !HasName(rest, name) ==> tail == rest + [(name, level)]
    ensures var al, r := [head] + rest, [head] + tail;
      && DistinctNames(r)
      && (HasName(al, name) ==> |r| == |al| && forall i :: 0 <= i < |al| ==> r[i] == (if al[i].0 == name then (name, level) else al[i]))
      && (!HasName(al, name) ==> r == al + [(name, level)])
  {
    var al := [head] + rest;
    assert forall k :: 0 <= k < |rest| ==> rest[k] == al[k + 1];
    if HasName(rest, name) {
      var j :| 0 <= j < |rest| && rest[j].0 == name;
      assert al[j + 1].0 == name;
      PutConsFound(head, rest, name, level, tail);
    } else {
      assert [head] + tail == al + [(name, level)];
      PutConsAbsent(head, rest, name, level);
    }
  }

  lemma PutConsFound(head: (string, int), rest: SkillList, name: string, level: int, tail: SkillList)
    requires DistinctNames([head] + rest) && head.0 != name && DistinctNames(tail)
    requires |tail| == |rest| && forall i :: 0 <= i < |rest| ==> tail[i] == (if rest[i].0 == name then (name, level) else rest[i])
    ensures var al, r := [head] + rest, [head] + tail;
      && DistinctNames(r)
      && |r| == |al| && forall i :: 0 <= i < |al| ==> r[i] == (if al[i].0 == name then (name, level) else al[i])
  {
    var al, r := [head] + rest, [head] + tail;
    forall i, j | 0 <= i < j < |r| ensures r[i].0 != r[j].0 {
      if i == 0 {
        assert r[j] == tail[j - 1] && al[j] == rest[j - 1];
        assert al[0].0 != al[j].0;
      } else {
        assert r[i] == tail[i - 1] && r[j] == tail[j - 1];
      }
    }
    forall i | 0 < i < |al| ensures r[i] == (if al[i].0 == name then (name, level) else al[i]) {
      assert r[i] == tail[i - 1] && al[i] == rest[i - 1];
    }
  }

  lemma PutConsAbsent(head: (string, int), rest: SkillList, name: string, level: int)
    requires DistinctNames([head] + rest) && head.0 != name && !HasName(rest, name)
    ensures var al := [head] + rest;
      && DistinctNames(al + [(name, level)])
      && !HasName(al, name)
  {
    var al := [head] + rest;
    var r := al + [(name, level)];
    forall k | 0 <= k < |al| ensures al[k].0 != name {
      if k > 0 {
        assert al[k] == rest[k - 1];
      }
    }
    forall i, j | 0 <= i < j < |r| ensures r[i].0 != r[j].0 {
      if j == |al| {
        assert r[i] == al[i];
      } else {
        assert r[i] == al[i] && r[j] == al[j];
      }
    }
  }

  /** The dict as a map. */
  function AsMap(al: SkillList): map<string, int>
  {
    if al == [] then map[] else AsMap(al[1..])[al[0].0 := al[0].1]
  }

  lemma {:induction false} AsMapPut(al: SkillList, name: string, level: int)
    requires DistinctNames(al)
    ensures AsMap(Put(al, name, level)) == AsMap(al)[name := level]
  {
    if al != [] && al[0].0 != name {
      AsMapPut(al[1..], name, level);
      assert Put(al, name, level)[1..] == Put(al[1..], name, level);
    }
  }

  // ---------------------------------------------------------------- parsing

  /** One comma-separated piece: skipped without `=`, else exactly `name=level`. */
  function ParsePair(pair: string): Result<Option<(string, int)>, SkillError>
  {
    if '=' !in pair then Success(None)
    else
      var parts := Split(pair, '=');
      if |parts| != 2 then Failure(TooManyFields(pair))
      else match ParseInt(Strip(parts[1]))
        case None => Failure(NotAnInteger(parts[1]))
        case Some(level) => Success(Some((Strip(parts[0]), level)))
  }

  /** The pieces in order, each later assignment overriding an earlier one;
      the first failing piece decides the error. */
  function ParsePairs(pairs: seq<string>): (r: Result<SkillList, SkillError>)
    ensures r.Success? ==> DistinctNames(r.value)
  {
    if pairs == [] then Success([])
    else
      match ParsePairs(pairs[..|pairs| - 1])
      case Failure(e) => Failure(e)
      case Success(acc) =>
        match ParsePair(pairs[|pairs| - 1])
        case Failure(e) => Failure(e)
        case Success(None) => Success(acc)
        case Success(Some(p)) => Success(Put(acc, p.0, p.1))
  }

  /** `parse_skills_string`: an empty summary is an empty dict. */
  function ParseSkills(s: string): Result<SkillList, SkillError>
  {
    if s == "" then Success([]) else ParsePairs(Split(s, ','))
  }

  /** The reference reading of a summary: the level the last piece naming `name` gives. */
  function LastLevel(pairs: seq<string>, name: string): Option<int>
  {
    if pairs == [] then None
    else match ParsePair(pairs[|pairs| - 1])
      case Success(Some(p)) => if p.0 == name then Some(p.1) else LastLevel(pairs[..|pairs| - 1], name)
      case _ => LastLevel(pairs[..|pairs| - 1], name)
  }

  function Lookup(m: map<string, int>, name: string): Option<int>
  {
    if name in m then Some(m[name]) else None
  }

  /** A parsed summary maps each name to the level of the last piece that names it,
      and to nothing else; pieces without `=` contribute nothing. */
  lemma {:induction false} ParsePairsMeaning(pairs: seq<string>)
    requires ParsePairs(pairs).Success?
    ensures forall name :: Lookup(AsMap(ParsePairs(pairs).value), name) == LastLevel(pairs, name)
  {
    if pairs != [] {
      var init := pairs[..|pairs| - 1];
      ParsePairsMeaning(init);
      var acc := ParsePairs(init).value;
      match ParsePair(pairs[|pairs| - 1])
      case Success(None) =>
      case Success(Some(p)) =>
        AsMapPut(acc, p.0, p.1);
    }
  }

  /** Parsing fails exactly when some piece containing `=` is not `name=integer`. */
  lemma {:induction false} ParsePairsFails(pairs: seq<string>)
    ensures ParsePairs(pairs).Failure? <==> exists i :: 0 <= i < |pairs| && ParsePair(pairs[i]).Failure?
  {
    if pairs != [] {
      var init := pairs[..|pairs| - 1];
      ParsePairsFails(init);
      if exists i :: 0 <= i < |init| && ParsePair(init[i]).Failure? {
        var i :| 0 <= i < |init| && ParsePair(init[i]).Failure?;
        assert pairs[i] == init[i];
      }
      if exists i :: 0 <= i < |pairs| && ParsePair(pairs[i]).Failure? {
        var i :| 0 <= i < |pairs| && ParsePair(pairs[i]).Failure?;
        if i < |init| {
          assert init[i] == pairs[i];
        }
      }
    }
  }

  /** Once a prefix of the pieces fails, the whole summary fails with that error. */
  lemma {:induction false} FailureSticks(pairs: seq<string>, n: nat)
    requires n <= |pairs| && ParsePairs(pairs[..n]).Failure?
    ensures ParsePairs(pairs) == ParsePairs(pairs[..n])
  {
    if n < |pairs| {
      var init := pairs[..|pairs| - 1];
      assert init[..n] == pairs[..n];
      FailureSticks(init, n);
    } else {
      assert pairs[..n] == pairs;
    }
  }

  /** `parse_skills_string` as the tracker runs it: one pass over the pieces, filling
      the dict and raising at the first bad piece. */
  method ParseSkillsString(s: string) returns (r: Result<SkillList, SkillError>)
    ensures r == ParseSkills(s)
  {
    if s == "" {
      return Success([]);
    }
    var pairs := Split(s, ',');
    var skills: SkillList := [];
    var i := 0;
    while i < |pairs|
      invariant 0 <= i <= |pairs|
      invariant ParsePairs(pairs[..i]) == Success(skills)
    {
      var pair := pairs[i];
      assert pairs[..i + 1][..i] == pairs[..i];
      if '=' in pair {
        var parts := Split(pair, '=');
        if |parts| != 2 {
          r := Failure(TooManyFields(pair));
          FailureSticks(pairs, i + 1);
          return;
        }
        var level := ParseInt(Strip(parts[1]));
        if level.None? {
          r := Failure(NotAnInteger(parts[1]));
          FailureSticks(pairs, i + 1);
          return;
        }
        skills := Put(skills, Strip(parts[0]), level.value);
      }
      i := i + 1;
    }
    assert pairs[..|pairs|] == pairs;
    r := Success(skills);
  }

  /** A piece without `=` is skipped; two `=` or a non-integer level raise. */
  lemma ParsePairRejects()
    ensures ParsePair("Aiming") == Success(None)
    ensures ParsePair("Aiming=5=6") == Failure(TooManyFields("Aiming=5=6"))
  {
    var pair := "Aiming=5=6";
    assert pair == "Aiming" + ['='] + "5=6";
    assert "5=6" == "5" + "=" + "6";
    assert Split(pair, '=') == ["Aiming", "5", "6"] by {
      SplitAtSeparator("Aiming", "5=6", '=');
      SplitPair("5", "6");
    }
    ParsePairTooMany(pair);
    assert '=' !in "Aiming" by {
      var a := "Aiming";
      assert a[0] != '=' && a[1] != '=' && a[2] != '=' && a[3] != '=' && a[4] != '=' && a[5] != '=';
    }
    ParsePairNoSeparator("Aiming");
  }

  lemma ParsePairNoSeparator(pair: string)
    requires '=' !in pair
    ensures ParsePair(pair) == Success(None)
  {
  }

  lemma ParsePairTooMany(pair: string)
    requires '=' in pair && |Split(pair, '=')| != 2
    ensures ParsePair(pair) == Failure(TooManyFields(pair))
  {
  }

  /** A name the summary can carry: no separator in it and no surrounding whitespace. */
  predicate CleanName(name: string)
  {
    '=' !in name && ',' !in name && Strip(name) == name
  }

  function PairText(p: (string, int)): string
  {
    p.0 + "=" + IntToString(p.1)
  }

  function PairTexts(al: SkillList): (r: seq<string>)
  {
    seq(|al|, i requires 0 <= i < |al| => PairText(al[i]))
  }

  /** The summary the mod writes for a skill list. */
  function SkillsText(al: SkillList): string
  {
    Join(PairTexts(al), ',')
  }

  lemma StripDigits(i: int)
    ensures Strip(IntToString(i)) == IntToString(i)
  {
    IntToStringChars(i);
    var t := IntToString(i);
    assert !IsSpace(t[0]) && !IsSpace(t[|t| - 1]);
  }

  /** A piece `name=value` with a clean name and an integer value parses to that assignment. */
  lemma ParsePairOf(name: string, value: string, level: int)
    requires '=' !in name && '=' !in value && Strip(name) == name
    requires ParseInt(Strip(value)) == Some(level)
    ensures ParsePair(name + "=" + value) == Success(Some((name, level)))
  {
    SplitPair(name, value);
    ParsePairOfParts(name + "=" + value, name, value, level);
  }

  lemma SplitPair(name: string, value: string)
    requires '=' !in name && '=' !in value
    ensures '=' in name + "=" + value
    ensures Split(name + "=" + value, '=') == [name, value]
  {
    assert (name + "=" + value)[|name|] == '=';
    SplitAtSeparator(name, value, '=');
    SplitNoSeparator(value, '=');
  }

  lemma ParsePairOfParts(pair: string, name: string, value: string, level: int)
    requires '=' in pair && Split(pair, '=') == [name, value]
    requires Strip(name) == name && ParseInt(Strip(value)) == Some(level)
    ensures ParsePair(pair) == Success(Some((name, level)))
  {
  }

  lemma ParsePairText(p: (string, int))
    requires CleanName(p.0)
    ensures ParsePair(PairText(p)) == Success(Some(p))
    ensures ',' !in PairText(p)
  {
    IntToStringChars(p.1);
    StripDigits(p.1);
    ParseIntOfString(p.1);
    ParsePairOf(p.0, IntToString(p.1), p.1);
  }

  lemma PairTextsInit(al: SkillList)
    requires al != []
    ensures PairTexts(al)[..|al| - 1] == PairTexts(al[..|al| - 1])
    ensures PairTexts(al)[|al| - 1] == PairText(al[|al| - 1])
  {
    var init := al[..|al| - 1];
    forall i | 0 <= i < |init| ensures PairTexts(al)[..|al| - 1][i] == PairTexts(init)[i] {
      assert init[i] == al[i];
    }
  }

  /** Parsing one more piece that names a skill assigns it after the earlier pieces. */
  lemma ParsePairsSnoc(pairs: seq<string>, acc: SkillList, p: (string, int))
    requires |pairs| > 0
    requires ParsePairs(pairs[..|pairs| - 1]) == Success(acc)
    requires ParsePair(pairs[|pairs| - 1]) == Success(Some(p))
    ensures ParsePairs(pairs) == Success(Put(acc, p.0, p.1))
  {
  }

  /** Dropping the last entry keeps the names distinct and clean, and the last
      name does not occur earlier. */
  lemma InitOfDistinct(al: SkillList, init: SkillList)
    requires al != [] && init == al[..|al| - 1]
    requires DistinctNames(al)
    requires forall i :: 0 <= i < |al| ==> CleanName(al[i].0)
    ensures DistinctNames(init)
    ensures forall i :: 0 <= i < |init| ==> CleanName(init[i].0)
    ensures !HasName(init, al[|al| - 1].0)
    ensures CleanName(al[|al| - 1].0)
  {
    InitDistinct(al, init);
    InitClean(al, init);
  }

  lemma InitDistinct(al: SkillList, init: SkillList)
    requires al != [] && init == al[..|al| - 1]
    requires DistinctNames(al)
    ensures DistinctNames(init)
    ensures !HasName(init, al[|al| - 1].0)
  {
    forall i, j | 0 <= i < j < |init| ensures init[i].0 != init[j].0 {
      assert init[i] == al[i] && init[j] == al[j];
    }
    forall i | 0 <= i < |init| ensures init[i].0 != al[|al| - 1].0 {
      assert init[i] == al[i];
    }
  }

  lemma InitClean(al: SkillList, init: SkillList)
    requires al != [] && init == al[..|al| - 1]
    requires forall i :: 0 <= i < |al| ==> CleanName(al[i].0)
    ensures forall i :: 0 <= i < |init| ==> CleanName(init[i].0)
  {
    forall i | 0 <= i < |init| ensures CleanName(init[i].0) {
      assert init[i] == al[i];
    }
  }

  lemma Snoc<T>(s: seq<T>)
    requires s != []
    ensures s[..|s| - 1] + [s[|s| - 1]] == s
  {
  }

  lemma {:induction false} ParsePairsTexts(al: SkillList)
    requires DistinctNames(al)
    requires forall i :: 0 <= i < |al| ==> CleanName(al[i].0)
    ensures ParsePairs(PairTexts(al)) == Success(al)
  {
    if al != [] {
      var init := al[..|al| - 1];
      var last := al[|al| - 1];
      var texts := PairTexts(al);
      PairTextsInit(al);
      InitOfDistinct(al, init);
      ParsePairsTexts(init);
      ParsePairText(last);
      ParsePairsSnoc(texts, init, last);
      Snoc(al);
    }
  }

  /** Reading back the summary of a skill list with distinct clean names gives the list. */
  lemma ParseSkillsText(al: SkillList)
    requires DistinctNames(al)
    requires forall i :: 0 <= i < |al| ==> CleanName(al[i].0)
    ensures ParseSkills(SkillsText(al)) == Success(al)
  {
    if al != [] {
      var pieces := PairTexts(al);
      forall k | 0 <= k < |pieces| ensures ',' !in pieces[k] {
        ParsePairText(al[k]);
      }
      SplitJoin(pieces, ',');
      ParsePairsTexts(al);
    }
  }

  // ---------------------------------------------------------------- peak skills

  function Level(p: (string, int)): real
  {
    p.1 as real
  }

  /** `sorted(skills.items(), key=level, reverse=True)[:3]`, keeping levels above zero. */
  function TopSkills(al: SkillList): SkillList
  {
    Filter(Ranking.Top(al, Level, 3), Scored)
  }

  /** `if level > 0` in the comprehension. */
  function Scored(p: (string, int)): bool
  {
    p.1 > 0
  }

  function PeakSkillsText(al: SkillList): string
  {
    JoinWith(SkillWords(TopSkills(al)), ", ")
  }

  function SkillWords(al: SkillList): seq<string>
  {
    if al == [] then [] else [al[0].0 + " " + IntToString(al[0].1)] + SkillWords(al[1..])
  }

  /** The peak skills are three skills of the summary above level 0 (all of them when
      fewer have any level), in non-increasing level order, and no skill left out has a
      higher level than one shown. */
  lemma TopSkillsCorrect(al: SkillList)
    ensures var r := TopSkills(al);
      && |r| == Min(3, |Filter(al, Scored)|)
      && Ranking.SortedDesc(r, Level)
      && (forall p :: p in r ==> p in al && p.1 > 0)
      && forall x, y :: x in al && x !in r && x.1 > 0 && y in r ==> x.1 <= y.1
  {
    var top := Ranking.Top(al, Level, 3);
    var keep := Scored;
    Ranking.TopCorrect(al, Level, 3);
    Ranking.TopFilterCount(al, Level, 3, keep);
    Ranking.FilterSorted(top, Level, keep);
    var r := Filter(top, keep);
    KeptFromTop(al, top, r);
    NoneHigherLeftOut(al, top, r);
  }

  lemma KeptFromTop(al: SkillList, top: SkillList, r: SkillList)
    requires multiset(top) <= multiset(al)
    requires forall p :: p in r ==> p in top && p.1 > 0
    ensures forall p :: p in r ==> p in al && p.1 > 0
  {
    forall p | p in r ensures p in al {
      assert multiset(top)[p] > 0;
    }
  }

  lemma NoneHigherLeftOut(al: SkillList, top: SkillList, r: SkillList)
    requires forall x, y :: x in multiset(al) - multiset(top) && y in top ==> Level(x) <= Level(y)
    requires forall p :: p in top && p.1 > 0 ==> p in r
    requires forall p :: p in r ==> p in top
    ensures forall x, y :: x in al && x !in r && x.1 > 0 && y in r ==> x.1 <= y.1
  {
    forall x, y | x in al && x !in r && x.1 > 0 && y in r ensures x.1 <= y.1 {
      assert x !in top;
      assert x in multiset(al) - multiset(top);
    }
  }
}
