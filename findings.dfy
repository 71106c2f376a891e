/**
 * The scoring half of SoarHtml::parseResult() in soar.php: the severity level
 * of a finding, the split of the analyzer's entries into the one explain slot
 * and the ordinary findings, the deduction-based score, and the usort() by
 * descending level.
 *
 * The analyzer's answer is a sequence of (key, finding) pairs in PHP array
 * order; a JSON list has the keys "0", "1", ...
 */
module SoarFindings {
  import opened PhpStrings
  import opened SoarBridge

  type Entry = (string, Finding)

  /** $finding[$name], where an undefined index reads as the empty string. */
  function Field(f: Finding, name: string): string {
    if name in f then f[name] else ""
  }

  /** str_replace(['L', 'l'], '', s): every 'L' and 'l', wherever it stands, is deleted. */
  function RemoveLs(s: string): (r: string)
    ensures 'L' !in r && 'l' !in r
    ensures |r| <= |s|
    ensures 'L' !in s && 'l' !in s ==> r == s
    ensures multiset(r) == multiset(s)['L' := 0]['l' := 0]
  {
    if s == [] then []
    else
      assert s == [s[0]] + s[1..];
      if s[0] == 'L' || s[0] == 'l' then RemoveLs(s[1..])
      else [s[0]] + RemoveLs(s[1..])
  }

  /** intval(str_replace(['L', 'l'], '', $val['Severity'])) */
  function SeverityLevel(f: Finding): int {
    IntVal(RemoveLs(Field(f, "Severity")))
  }

  /** strpos($key, 'EXP') !== false */
  predicate IsExplainKey(key: string) {
    Contains(key, "EXP")
  }

  /** An ordinary finding after parseResult() has set its 'Level'. */
  datatype Item = Item(finding: Finding, level: int)

  // ---------------------------------------------------------------------
  // What the loop of parseResult() accumulates, entry by entry
  // ---------------------------------------------------------------------

  /** The sum of the severity levels of all entries, explain-class ones included. */
  function SumLevels(r: seq<Entry>): int {
    if r == [] then 0 else SumLevels(r[..|r| - 1]) + SeverityLevel(r[|r| - 1].1)
  }

  /** $explainItem: the finding of the last entry whose key contains "EXP", or []. */
  function ExplainSlot(r: seq<Entry>): Finding {
    if r == [] then map[]
    else if IsExplainKey(r[|r| - 1].0) then r[|r| - 1].1
    else ExplainSlot(r[..|r| - 1])
  }

  /** $analysis before the sort: the other entries, each with its level, in input order. */
  function Ordinary(r: seq<Entry>): (items: seq<Item>)
    ensures |items| <= |r|
    ensures forall it :: it in items ==> it.level == SeverityLevel(it.finding)
  {
    if r == [] then []
    else
      var p := Ordinary(r[..|r| - 1]);
      var (key, f) := r[|r| - 1];
      if IsExplainKey(key) then p else p + [Item(f, SeverityLevel(f))]
  }

  /** The findings of the explain-class entries, in input order. */
  function ExplainEntries(r: seq<Entry>): seq<Finding> {
    if r == [] then []
    else
      var p := ExplainEntries(r[..|r| - 1]);
      if IsExplainKey(r[|r| - 1].0) then p + [r[|r| - 1].1] else p
  }

  /** $this->config['num']: 100 minus five points per level, never below 0. */
  function Score(r: seq<Entry>): (num: int)
    ensures num >= 0
    ensures num == 0 <==> SumLevels(r) >= 20
    ensures num <= 100 <==> SumLevels(r) >= 0
    ensures num % 5 == 0
    ensures num == if 100 - 5 * SumLevels(r) < 0 then 0 else 100 - 5 * SumLevels(r)
  {
    var t := SumLevels(r);
    var total := 100 - 5 * t;
    var num := if total < 0 then 0 else total;
    ClampedDeduction(t, num);
    num
  }

  /** Five points per level off 100, clamped at 0, for a level sum t. */
  lemma ClampedDeduction(t: int, num: int)
    requires num == if 100 - 5 * t < 0 then 0 else 100 - 5 * t
    ensures num == 0 <==> t >= 20
    ensures num <= 100 <==> t >= 0
    ensures num % 5 == 0
  {
    assert 100 - 5 * t == 5 * (20 - t);
  }

  function SumItemLevels(items: seq<Item>): int {
    if items == [] then 0 else SumItemLevels(items[..|items| - 1]) + items[|items| - 1].level
  }

  // ---------------------------------------------------------------------
  // Properties of the partition and the score
  // ---------------------------------------------------------------------

  /**
   * The explain slot is the finding of the LAST entry whose key contains
   * "EXP": later explain-class entries overwrite earlier ones.
   */
  lemma {:induction false} ExplainSlotIsLast(r: seq<Entry>, j: nat)
    requires j < |r| && IsExplainKey(r[j].0)
    requires forall k :: j < k < |r| ==> !IsExplainKey(r[k].0)
    ensures ExplainSlot(r) == r[j].1
  {
    if j < |r| - 1 {
      var p := r[..|r| - 1];
      assert p[j] == r[j];
      ExplainSlotIsLast(p, j);
    }
  }

  /** Without any explain-class key the slot stays empty and every entry is ordinary. */
  lemma NoExplainKeys(r: seq<Entry>)
    requires forall k :: 0 <= k < |r| ==> !IsExplainKey(r[k].0)
    ensures ExplainSlot(r) == map[]
    ensures ExplainEntries(r) == []
    ensures |Ordinary(r)| == |r|
    ensures forall k :: 0 <= k < |r| ==> Ordinary(r)[k] == Item(r[k].1, SeverityLevel(r[k].1))
  {
    NoExplainSlot(r);
    AllOrdinary(r);
  }

  lemma {:induction false} NoExplainSlot(r: seq<Entry>)
    requires forall k :: 0 <= k < |r| ==> !IsExplainKey(r[k].0)
    ensures ExplainSlot(r) == map[] && ExplainEntries(r) == []
  {
    if r != [] {
      var p := r[..|r| - 1];
      assert forall k :: 0 <= k < |p| ==> p[k] == r[k];
      NoExplainSlot(p);
    }
  }

  lemma {:induction false} AllOrdinary(r: seq<Entry>)
    requires forall k :: 0 <= k < |r| ==> !IsExplainKey(r[k].0)
    ensures |Ordinary(r)| == |r|
    ensures forall k :: 0 <= k < |r| ==> Ordinary(r)[k] == Item(r[k].1, SeverityLevel(r[k].1))
  {
    if r != [] {
      var p := r[..|r| - 1];
      assert forall k :: 0 <= k < |p| ==> p[k] == r[k];
      AllOrdinary(p);
      var it := Item(r[|r| - 1].1, SeverityLevel(r[|r| - 1].1));
      var o := Ordinary(r);
      assert o == Ordinary(p) + [it];
      forall k | 0 <= k < |r|
        ensures o[k] == Item(r[k].1, SeverityLevel(r[k].1))
      {
        if k < |p| {
          assert o[k] == Ordinary(p)[k] && p[k] == r[k];
        } else {
          assert k == |r| - 1 && o[k] == it;
        }
      }
    }
  }

  /**
   * Every entry lands on exactly one side: the ordinary findings and the
   * explain-class findings together are the entries, counted with repetition.
   */
  lemma {:induction false} PartitionComplete(r: seq<Entry>)
    ensures |Ordinary(r)| + |ExplainEntries(r)| == |r|
    ensures multiset(Findings(Ordinary(r))) + multiset(ExplainEntries(r)) == multiset(EntryFindings(r))
  {
    if r != [] {
      var p := r[..|r| - 1];
      var (key, f) := r[|r| - 1];
      PartitionComplete(p);
      assert EntryFindings(r) == EntryFindings(p) + [f];
      if IsExplainKey(key) {
        assert ExplainEntries(r) == ExplainEntries(p) + [f];
        assert Ordinary(r) == Ordinary(p);
      } else {
        assert ExplainEntries(r) == ExplainEntries(p);
        assert Ordinary(r) == Ordinary(p) + [Item(f, SeverityLevel(f))];
        FindingsAppend(Ordinary(p), Item(f, SeverityLevel(f)));
      }
    }
  }

  function Findings(items: seq<Item>): (fs: seq<Finding>)
    ensures |fs| == |items|
    ensures forall k :: 0 <= k < |items| ==> fs[k] == items[k].finding
  {
    seq(|items|, k requires 0 <= k < |items| => items[k].finding)
  }

  function EntryFindings(r: seq<Entry>): (fs: seq<Finding>)
    ensures |fs| == |r|
    ensures forall k :: 0 <= k < |r| ==> fs[k] == r[k].1
  {
    seq(|r|, k requires 0 <= k < |r| => r[k].1)
  }

  lemma FindingsAppend(items: seq<Item>, it: Item)
    ensures Findings(items + [it]) == Findings(items) + [it.finding]
  {
  }

  /** The slot holds the last explain-class finding, or [] when there is none. */
  lemma {:induction false} ExplainSlotOfEntries(r: seq<Entry>)
    ensures ExplainSlot(r) == if ExplainEntries(r) == [] then map[] else ExplainEntries(r)[|ExplainEntries(r)| - 1]
  {
    if r != [] {
      ExplainSlotOfEntries(r[..|r| - 1]);
    }
  }

  /**
   * The deduction counts every entry: the levels of the ordinary findings plus
   * the levels of the explain-class findings, which are not listed but still cost points.
   */
  lemma {:induction false} DeductionSplit(r: seq<Entry>)
    ensures SumLevels(r) == SumItemLevels(Ordinary(r)) + SumFindingLevels(ExplainEntries(r))
  {
    if r != [] {
      var p := r[..|r| - 1];
      DeductionSplit(p);
      var (key, f) := r[|r| - 1];
      if IsExplainKey(key) {
        SumFindingLevelsSnoc(ExplainEntries(p), f);
      } else {
        SumItemLevelsSnoc(Ordinary(p), Item(f, SeverityLevel(f)));
      }
    }
  }

  lemma SumItemLevelsSnoc(items: seq<Item>, it: Item)
    ensures SumItemLevels(items + [it]) == SumItemLevels(items) + it.level
  {
    assert (items + [it])[..|items|] == items;
  }

  lemma SumFindingLevelsSnoc(fs: seq<Finding>, f: Finding)
    ensures SumFindingLevels(fs + [f]) == SumFindingLevels(fs) + SeverityLevel(f)
  {
    assert (fs + [f])[..|fs|] == fs;
  }

  function SumFindingLevels(fs: seq<Finding>): int {
    if fs == [] then 0 else SumFindingLevels(fs[..|fs| - 1]) + SeverityLevel(fs[|fs| - 1])
  }

  /** The list keys "0", "1", ... that a JSON array decodes with. */
  function ListEntries(fs: seq<Finding>): (r: seq<Entry>)
    ensures |r| == |fs|
    ensures forall k :: 0 <= k < |fs| ==> r[k] == (NatToString(k), fs[k])
  {
    seq(|fs|, k requires 0 <= k < |fs| => (NatToString(k), fs[k]))
  }

  lemma {:induction false} DigitsHaveNoExp(s: string)
    requires AllDigits(s)
    ensures !Contains(s, "EXP")
  {
    if s != [] {
      assert !IsPrefix("EXP", s) by {
        if |s| >= 3 { assert IsDigit(s[0]) && s[..3][0] == s[0]; }
      }
      DigitsHaveNoExp(s[1..]);
    }
  }

  /**
   * A list-shaped answer never fills the explain slot: its keys are decimal
   * numbers, so every finding is ordinary and keeps its position.
   */
  lemma ListHasNoExplain(fs: seq<Finding>)
    ensures ExplainSlot(ListEntries(fs)) == map[]
    ensures |Ordinary(ListEntries(fs))| == |fs|
    ensures forall k :: 0 <= k < |fs| ==> Ordinary(ListEntries(fs))[k] == Item(fs[k], SeverityLevel(fs[k]))
  {
    var r := ListEntries(fs);
    forall k | 0 <= k < |r| ensures !IsExplainKey(r[k].0) {
      DigitsHaveNoExp(NatToString(k));
    }
    NoExplainKeys(r);
  }

  lemma {:induction false} RemoveLsOfDigits(s: string)
    requires AllDigits(s)
    ensures RemoveLs(s) == s
  {
    if s != [] {
      RemoveLsOfDigits(s[1..]);
      assert [s[0]] + s[1..] == s;
    }
  }

  /** A severity "L<n>" or "l<n>" has level n. */
  lemma SeverityOfLevel(f: Finding, prefix: char, n: nat)
    requires prefix == 'L' || prefix == 'l'
    requires Field(f, "Severity") == [prefix] + NatToString(n)
    ensures SeverityLevel(f) == n
  {
    var d := NatToString(n);
    assert ([prefix] + d)[1..] == d;
    RemoveLsOfDigits(d);
    IntValRoundTrip(n);
  }

  /** A severity with no digit in it, or no severity at all, has level 0. */
  lemma SeverityWithoutDigits(f: Finding)
    requires forall i :: 0 <= i < |Field(f, "Severity")| ==> !IsDigit(Field(f, "Severity")[i])
    ensures SeverityLevel(f) == 0
  {
    var sev := Field(f, "Severity");
    var t := RemoveLs(sev);
    RemoveLsKeepsOthers(sev);
    forall i | 0 <= i < |t| ensures !IsDigit(t[i]) {
      assert t[i] in sev;
    }
    IntValNoDigits(t);
  }

  /**
   * Deleting L and l keeps every other character, in order: a kept character
   * s[i] stands in the result right after what is kept of s[..i].
   */
  lemma {:induction false} RemoveLsKeepsOthers(s: string)
    ensures forall c :: c in RemoveLs(s) ==> c in s
    ensures forall i :: 0 <= i < |s| && s[i] != 'L' && s[i] != 'l' ==>
      |RemoveLs(s[..i])| < |RemoveLs(s)| && RemoveLs(s)[|RemoveLs(s[..i])|] == s[i]
  {
    forall c | c in RemoveLs(s) ensures c in s {
      assert multiset(RemoveLs(s))[c] > 0;
    }
    forall i | 0 <= i < |s| && s[i] != 'L' && s[i] != 'l'
      ensures |RemoveLs(s[..i])| < |RemoveLs(s)| && RemoveLs(s)[|RemoveLs(s[..i])|] == s[i]
    {
      RemoveLsKeepsAt(s, i);
    }
  }

  lemma RemoveLsKeepsAt(s: string, i: nat)
    requires i < |s| && s[i] != 'L' && s[i] != 'l'
    ensures RemoveLs(s) == RemoveLs(s[..i]) + [s[i]] + RemoveLs(s[i + 1..])
  {
    assert s == s[..i] + s[i..];
    RemoveLsAppend(s[..i], s[i..]);
    assert s[i..] == [s[i]] + s[i + 1..];
  }

  /** str_replace works piece by piece: the pieces of a concatenation are cleaned separately. */
  lemma {:induction false} RemoveLsAppend(a: string, b: string)
    ensures RemoveLs(a + b) == RemoveLs(a) + RemoveLs(b)
  {
    if a == [] {
      assert a + b == b;
    } else {
      assert (a + b)[0] == a[0] && (a + b)[1..] == a[1..] + b;
      RemoveLsAppend(a[1..], b);
    }
  }

  /** Each entry costs five points per level: an entry of non-negative level never raises the score. */
  lemma {:induction false} ScoreNeverRises(r: seq<Entry>, e: Entry)
    requires SeverityLevel(e.1) >= 0
    ensures Score(r + [e]) <= Score(r)
    ensures SeverityLevel(e.1) > 0 && Score(r) > 0 ==> Score(r + [e]) < Score(r)
  {
    assert (r + [e])[..|r|] == r;
    assert SumLevels(r + [e]) == SumLevels(r) + SeverityLevel(e.1);
  }

  // ---------------------------------------------------------------------
  // usort($analysis, fn($a, $b) => $b['Level'] - $a['Level'])
  // ---------------------------------------------------------------------

  predicate SortedByLevel(s: seq<Item>) {
    forall i, j :: 0 <= i < j < |s| ==> s[i].level >= s[j].level
  }

  /** The items of level `level`, in order. */
  function AtLevel(s: seq<Item>, level: int): seq<Item>
  {
    if s == [] then []
    else if s[0].level == level then [s[0]] + AtLevel(s[1..], level)
    else AtLevel(s[1..], level)
  }

  /** Inserts `x` before the first item of level at most x.level. */
  function InsertByLevel(x: Item, s: seq<Item>): (r: seq<Item>)
    requires SortedByLevel(s)
    ensures SortedByLevel(r)
    ensures multiset(r) == multiset(s) + multiset{x}
  {
    if s == [] || s[0].level <= x.level then [x] + s
    else
      var t := InsertByLevel(x, s[1..]);
      BoundedByHead(t, x, s);
      assert s == [s[0]] + s[1..];
      [s[0]] + t
  }

  lemma BoundedByHead(t: seq<Item>, x: Item, s: seq<Item>)
    requires SortedByLevel(s) && s != [] && x.level < s[0].level
    requires multiset(t) == multiset(s[1..]) + multiset{x}
    ensures forall j :: 0 <= j < |t| ==> t[j].level <= s[0].level
  {
    forall j | 0 <= j < |t| ensures t[j].level <= s[0].level {
      assert t[j] in multiset(t);
      if t[j] != x {
        assert t[j] in s[1..];
      }
    }
  }

  /** Inserting `x` puts it in front of the items of its own level and disturbs no other level. */
  lemma {:induction false} InsertAtLevel(x: Item, s: seq<Item>, level: int)
    requires SortedByLevel(s)
    ensures AtLevel(InsertByLevel(x, s), level) == if x.level == level then [x] + AtLevel(s, level) else AtLevel(s, level)
  {
    if s == [] || s[0].level <= x.level {
      var r := [x] + s;
      assert r[1..] == s;
      if s != [] && x.level == level && s[0].level != level {
        AtLevelBelow(s, level);
      }
    } else {
      InsertAtLevel(x, s[1..], level);
      var r := [s[0]] + InsertByLevel(x, s[1..]);
      assert r[1..] == InsertByLevel(x, s[1..]);
    }
  }

  /** In a sorted sequence that starts below `level`, no item has that level. */
  lemma {:induction false} AtLevelBelow(s: seq<Item>, level: int)
    requires SortedByLevel(s) && s != [] && s[0].level < level
    ensures AtLevel(s, level) == []
  {
    if |s| > 1 {
      AtLevelBelow(s[1..], level);
    }
  }

  /**
   * PHP 8's usort with the comparator $b['Level'] - $a['Level']: a stable sort
   * by descending level. The result is ordered and is a permutation of the input.
   */
  function SortByLevel(a: seq<Item>): (r: seq<Item>)
    ensures SortedByLevel(r)
    ensures multiset(r) == multiset(a)
  {
    if a == [] then []
    else
      assert a == [a[0]] + a[1..];
      InsertByLevel(a[0], SortByLevel(a[1..]))
  }

  /** The sort is stable: the items of each level keep their input order. */
  lemma {:induction false} SortByLevelStable(a: seq<Item>, level: int)
    ensures AtLevel(SortByLevel(a), level) == AtLevel(a, level)
  {
    if a != [] {
      SortByLevelStable(a[1..], level);
      InsertAtLevel(a[0], SortByLevel(a[1..]), level);
    }
  }
}
