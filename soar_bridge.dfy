/**
 * The analyzer bridge, class Soar of soar.php: option merging, the flag string
 * handed to the analyzer executable, the command line fixed at construction,
 * the SQL pre-processing before the statement is piped to the analyzer, and the
 * decoding of the analyzer's answer.
 *
 * The process itself (proc_open, the pipes) is the parameter `run`, a function
 * from command line and SQL text to the analyzer's standard output; json_decode
 * is the parameter `jsonDecode`, of which only the optional result is modelled.
 */
module SoarBridge {
  import opened Wrappers
  import opened PhpStrings

  // ---------------------------------------------------------------------
  // Options: a PHP array with string keys, in insertion order
  // ---------------------------------------------------------------------

  type Options = seq<(string, string)>

  function Keys(c: Options): (ks: seq<string>)
    ensures |ks| == |c|
    ensures forall i :: 0 <= i < |c| ==> ks[i] == c[i].0
  {
    seq(|c|, i requires 0 <= i < |c| => c[i].0)
  }

  predicate Distinct(ks: seq<string>) {
    forall i, j :: 0 <= i < j < |ks| ==> ks[i] != ks[j]
  }

  /** No key occurs twice, as in every PHP array. */
  predicate UniqueKeys(c: Options) {
    Distinct(Keys(c))
  }

  /** $c[$k], or None for an undefined index. */
  function Lookup(c: Options, k: string): (v: Option<string>)
    ensures v.Some? <==> k in Keys(c)
  {
    if c == [] then None
    else if c[0].0 == k then Some(c[0].1)
    else
      assert Keys(c) == [c[0].0] + Keys(c[1..]);
      Lookup(c[1..], k)
  }

  /** Keys and lookups of an array that starts with the pair x. */
  lemma ConsOptions(x: (string, string), c: Options)
    ensures Keys([x] + c) == [x.0] + Keys(c)
    ensures forall k :: Lookup([x] + c, k) == if x.0 == k then Some(x.1) else Lookup(c, k)
  {
    ConsKeys(x, c);
    ConsLookup(x, c);
  }

  lemma ConsKeys(x: (string, string), c: Options)
    ensures Keys([x] + c) == [x.0] + Keys(c)
  {
    var l, r := Keys([x] + c), [x.0] + Keys(c);
    assert |l| == |r|;
    forall i | 0 <= i < |l|
      ensures l[i] == r[i]
    {
      if i > 0 {
        assert ([x] + c)[i] == c[i - 1];
      }
    }
  }

  lemma ConsLookup(x: (string, string), c: Options)
    ensures forall k :: Lookup([x] + c, k) == if x.0 == k then Some(x.1) else Lookup(c, k)
  {
    assert ([x] + c)[1..] == c;
  }

  /** $c[$k] = $v: replaces the value in place, or appends a new key. */
  function Put(c: Options, k: string, v: string): (r: Options)
    ensures Keys(r) == if k in Keys(c) then Keys(c) else Keys(c) + [k]
    ensures Lookup(r, k) == Some(v)
    ensures forall k' :: k' != k ==> Lookup(r, k') == Lookup(c, k')
  {
    if c == [] then
      ConsOptions((k, v), []);
      assert [(k, v)] + [] == [(k, v)];
      [(k, v)]
    else if c[0].0 == k then
      PutFirst(c, k, v);
      [(k, v)] + c[1..]
    else
      var t := Put(c[1..], k, v);
      PutLater(c, k, v, t);
      [c[0]] + t
  }

  /** What Put promises about r, as one predicate for the step lemmas below. */
  ghost predicate PutResult(c: Options, k: string, v: string, r: Options) {
    && Keys(r) == (if k in Keys(c) then Keys(c) else Keys(c) + [k])
    && Lookup(r, k) == Some(v)
    && forall k' :: k' != k ==> Lookup(r, k') == Lookup(c, k')
  }

  lemma PutFirst(c: Options, k: string, v: string)
    requires c != [] && c[0].0 == k
    ensures PutResult(c, k, v, [(k, v)] + c[1..])
  {
    assert c == [c[0]] + c[1..];
    ConsOptions(c[0], c[1..]);
    ConsOptions((k, v), c[1..]);
  }

  lemma PutLater(c: Options, k: string, v: string, t: Options)
    requires c != [] && c[0].0 != k && PutResult(c[1..], k, v, t)
    ensures PutResult(c, k, v, [c[0]] + t)
  {
    assert c == [c[0]] + c[1..];
    ConsKeys(c[0], c[1..]);
    ConsKeys(c[0], t);
    AppendShape(c[0].0, Keys(c[1..]), Keys(t), k);
    ConsLookup(c[0], c[1..]);
    ConsLookup(c[0], t);
  }

  lemma AppendShape(x: string, ks: seq<string>, ts: seq<string>, k: string)
    requires x != k && ts == if k in ks then ks else ks + [k]
    ensures [x] + ts == if k in [x] + ks then [x] + ks else [x] + ks + [k]
  {
    assert [x] + ks + [k] == [x] + (ks + [k]);
  }

  /** The value the last (k, _) pair of `over` carries, if any. */
  function LastValue(over: Options, k: string): Option<string>
  {
    if over == [] then None
    else if over[|over| - 1].0 == k then Some(over[|over| - 1].1)
    else LastValue(over[..|over| - 1], k)
  }

  /** The keys of `over` that `base` lacks, each once, in order of first appearance. */
  function NewKeys(base: Options, over: Options): (ks: seq<string>)
    ensures Distinct(ks)
    ensures forall k :: k in ks ==> k !in Keys(base)
  {
    if over == [] then []
    else
      var p := NewKeys(base, over[..|over| - 1]);
      var k := over[|over| - 1].0;
      if k in Keys(base) || k in p then p else p + [k]
  }

  /**
   * array_merge($base, $over) for string keys: a key of `base` keeps its
   * position and takes the last value `over` gives it; keys new to `base`
   * follow in the order they first appear in `over`.
   */
  function Merge(base: Options, over: Options): (r: Options)
    ensures Keys(r) == Keys(base) + NewKeys(base, over)
    ensures forall k :: Lookup(r, k) == if LastValue(over, k).Some? then LastValue(over, k) else Lookup(base, k)
  {
    if over == [] then base
    else
      var m := Merge(base, over[..|over| - 1]);
      MergeStepKeys(base, over, m);
      MergeStepLookup(base, over, m);
      Put(m, over[|over| - 1].0, over[|over| - 1].1)
  }

  /** Merging one more pair extends the keys as NewKeys says. */
  lemma MergeStepKeys(base: Options, over: Options, m: Options)
    requires over != [] && Keys(m) == Keys(base) + NewKeys(base, over[..|over| - 1])
    ensures Keys(Put(m, over[|over| - 1].0, over[|over| - 1].1)) == Keys(base) + NewKeys(base, over)
  {
    var p := NewKeys(base, over[..|over| - 1]);
    var k := over[|over| - 1].0;
    assert k in Keys(m) <==> k in Keys(base) || k in p;
    assert Keys(base) + p + [k] == Keys(base) + (p + [k]);
  }

  /** Merging one more pair makes its value the one looked up under its key. */
  lemma MergeStepLookup(base: Options, over: Options, m: Options)
    requires over != []
    requires forall k :: Lookup(m, k) == if LastValue(over[..|over| - 1], k).Some? then LastValue(over[..|over| - 1], k) else Lookup(base, k)
    ensures forall k ::
      Lookup(Put(m, over[|over| - 1].0, over[|over| - 1].1), k) == if LastValue(over, k).Some? then LastValue(over, k) else Lookup(base, k)
  {
  }

  /**
   * Merging never removes a key and never duplicates one: every key of the base
   * and of the caller's options is in the result, and keys stay unique.
   */
  lemma {:induction false} MergeKeys(base: Options, over: Options, k: string)
    requires UniqueKeys(base)
    ensures UniqueKeys(Merge(base, over))
    ensures k in Keys(Merge(base, over)) <==> k in Keys(base) || k in Keys(over)
  {
    var r := Merge(base, over);
    var ks := Keys(base) + NewKeys(base, over);
    assert Distinct(ks) by {
      forall i, j | 0 <= i < j < |ks| ensures ks[i] != ks[j] {
        if j < |Keys(base)| {
          assert ks[i] == base[i].0 && ks[j] == base[j].0;
        } else if i >= |Keys(base)| {
          assert ks[i] == NewKeys(base, over)[i - |base|];
        } else {
          assert ks[j] in NewKeys(base, over);
        }
      }
    }
    NewKeysMembers(base, over, k);
  }

  lemma {:induction false} NewKeysMembers(base: Options, over: Options, k: string)
    ensures k in NewKeys(base, over) <==> k in Keys(over) && k !in Keys(base)
  {
    if over != [] {
      var init := over[..|over| - 1];
      NewKeysMembers(base, init, k);
      assert Keys(over) == Keys(init) + [over[|over| - 1].0];
    }
  }

  // ---------------------------------------------------------------------
  // buildConfig(): the "-key=value" flags
  // ---------------------------------------------------------------------

  /** The defaults of Soar::$config, in declaration order. */
  const Defaults: Options := [("report-type", "json"), ("allow-online-as-test", "true"), ("sampling", "false")]

  function Flag(key: string, value: string): string {
    "-" + key + "=" + value
  }

  function FlagItems(c: Options): (items: seq<string>)
    ensures |items| == |c|
    ensures forall i :: 0 <= i < |c| ==> items[i] == Flag(c[i].0, c[i].1)
  {
    seq(|c|, i requires 0 <= i < |c| => Flag(c[i].0, c[i].1))
  }

  /** One flag alone reads back as its option, whatever the value holds, when the key has no '='. */
  lemma FlagRoundTrip(key: string, value: string)
    requires '=' !in key
    ensures ParseFlag(Flag(key, value)) == (key, value)
  {
    assert Flag(key, value)[1..] == key + ['='] + value;
    SplitAtFirstOf(key, '=', value);
  }

  /** What buildConfig() returns for option list `c`. */
  function FlagString(c: Options): string {
    Join(" ", FlagItems(c))
  }

  /** Reads one "-key=value" item back: the key runs up to the first '='. */
  function ParseFlag(item: string): (string, string) {
    if item == [] then ("", "") else SplitAtFirst(item[1..], '=')
  }

  function ParseFlags(items: seq<string>): (c: Options)
    ensures |c| == |items|
    ensures forall i :: 0 <= i < |items| ==> c[i] == ParseFlag(items[i])
  {
    seq(|items|, i requires 0 <= i < |items| => ParseFlag(items[i]))
  }

  /**
   * The flag string carries the options exactly: when no key contains ' ' or
   * '=' and no value contains ' ', splitting it on single spaces and each item
   * at its first '=' gives back the option list, one item per key, in order.
   */
  lemma {:induction false} FlagStringRoundTrip(c: Options)
    requires c != []
    requires forall i :: 0 <= i < |c| ==> ' ' !in c[i].0 && '=' !in c[i].0 && ' ' !in c[i].1
    ensures Split(FlagString(c), ' ') == FlagItems(c)
    ensures ParseFlags(Split(FlagString(c), ' ')) == c
  {
    var items := FlagItems(c);
    forall i | 0 <= i < |items| ensures ' ' !in items[i] {
      assert items[i] == "-" + c[i].0 + "=" + c[i].1;
    }
    SplitJoin(items, ' ');
    forall i | 0 <= i < |items| ensures ParseFlag(items[i]) == c[i] {
      FlagRoundTrip(c[i].0, c[i].1);
    }
  }

  // ---------------------------------------------------------------------
  // analysis(): SQL pre-processing and decoding of the answer
  // ---------------------------------------------------------------------

  /** preg_replace('/^explain/i', '', s): one leading "explain", in any case, is deleted. */
  function StripExplain(s: string): (r: string)
    ensures |r| <= |s| && r == s[|s| - |r|..]
    ensures |r| == |s| - 7 <==> StartsWithIgnoreCase(s, "explain")
    ensures |r| == |s| <==> !StartsWithIgnoreCase(s, "explain")
  {
    if StartsWithIgnoreCase(s, "explain") then s[7..] else s
  }

  /** trim(preg_replace('/^explain/i', '', trim($sql))) */
  function PrepareSql(sql: string): (r: string)
    ensures IsTrimmed(r)
  {
    Trim(StripExplain(Trim(sql)))
  }

  /** A statement that does not start with "explain" is only trimmed. */
  lemma {:induction false} PrepareSqlPlain(sql: string)
    requires !StartsWithIgnoreCase(Trim(sql), "explain")
    ensures PrepareSql(sql) == Trim(sql)
  {
    TrimIdempotent(sql);
  }

  /** trim() of whitespace, a word and a rest keeps the word and right-trims the rest. */
  lemma {:induction false} TrimBeforeWord(ws: string, kw: string, rest: string)
    requires AllTrimSpace(ws)
    requires kw != [] && !IsTrimSpace(kw[0]) && !IsTrimSpace(kw[|kw| - 1])
    ensures Trim(ws + kw + rest) == kw + TrimEnd(rest)
  {
    var s := ws + kw + rest;
    var rt := TrimEnd(rest);
    var i, j := |ws|, |ws| + |kw| + |rt|;
    assert s[..i] == ws;
    assert s[j..] == rest[|rt|..];
    assert s[i..j] == kw + rt;
    assert (kw + rt)[0] == kw[0];
    assert (kw + rt)[|kw| + |rt| - 1] == if rt == [] then kw[|kw| - 1] else rt[|rt| - 1];
    TrimIsMiddle(s, i, j);
  }

  /**
   * One leading "explain" (in any letter case, after any leading whitespace) is
   * removed, even when it is only the start of a word, and nothing else: the
   * rest is trimmed and returned. A second "explain" behind it stays.
   */
  lemma {:induction false} PrepareSqlExplain(ws: string, kw: string, rest: string)
    requires AllTrimSpace(ws)
    requires |kw| == 7 && StartsWithIgnoreCase(kw, "explain")
    ensures PrepareSql(ws + kw + rest) == Trim(rest)
  {
    assert LowerAscii(kw[0]) == 'e' && LowerAscii(kw[6]) == 'n';
    TrimBeforeWord(ws, kw, rest);
    var rt := TrimEnd(rest);
    var t := kw + rt;
    assert StartsWithIgnoreCase(t, "explain") by {
      forall i | 0 <= i < 7 ensures LowerAscii(t[i]) == LowerAscii("explain"[i]) {
        assert t[i] == kw[i];
      }
    }
    assert StripExplain(t) == rt;
    TrimStartEndCommute(rest);
    var x := Trim(rest);
    TrimEndAt(x, |x|);
  }

  /** A decoded JSON value: an array of (key, finding) pairs, or a scalar of known truthiness. */
  datatype JsonValue = JArray(entries: seq<(string, Finding)>) | JScalar(truthy: bool)

  /** One finding of the analyzer: its fields by name. */
  type Finding = map<string, string>

  /** PHP truthiness of a decoded value: an array is true when non-empty. */
  predicate Truthy(v: JsonValue) {
    match v
    case JArray(es) => es != []
    case JScalar(t) => t
  }

  /** What analysis() returns: the raw text, or a decoded value. */
  datatype AnalysisResult = Raw(text: string) | Decoded(value: JsonValue)

  /** PHP's [[]]: a list holding one empty finding. */
  const EmptyReport: JsonValue := JArray([("0", map[])])

  /** The decode step of analysis(): `json_decode($data, true) ?: [[]]` in json mode. */
  function DecodeReport(reportType: string, data: string, decoded: Option<JsonValue>): (r: AnalysisResult)
    ensures reportType == "json" ==> r.Decoded? && Truthy(r.value)
    ensures reportType == "json" && decoded.Some? && Truthy(decoded.value) ==> r == Decoded(decoded.value)
    ensures reportType == "json" && (decoded.None? || !Truthy(decoded.value)) ==> r == Decoded(EmptyReport)
    ensures reportType != "json" ==> r == Raw(data)
  {
    if reportType == "json" then
      if decoded.Some? && Truthy(decoded.value) then Decoded(decoded.value) else Decoded(EmptyReport)
    else Raw(data)
  }

  // ---------------------------------------------------------------------
  // class Soar
  // ---------------------------------------------------------------------

  class Soar {
    var config: Options
    var cmd: string

    /** The options keep unique keys and the three defaults, at the front. */
    ghost predicate Valid()
      reads this
    {
      UniqueKeys(config) && |config| >= |Defaults| && Keys(config)[..|Defaults|] == Keys(Defaults)
    }

    /**
     * new Soar($options): merges the options over the defaults, then fixes the
     * command line as the executable path, a space and the flags.
     */
    constructor (binary: string, options: Options)
      ensures Valid()
      ensures config == Merge(Defaults, options)
      ensures cmd == binary + " " + FlagString(config)
    {
      config := Defaults;
      cmd := "";
      new;
      Config(options);
      var flags := BuildConfig();
      cmd := binary + " " + flags;
    }

    /** config($options): merges more options; the command line is left as it was. */
    method Config(options: Options)
      requires Valid()
      modifies this
      ensures Valid()
      ensures config == Merge(old(config), options)
      ensures cmd == old(cmd)
    {
      ghost var before := config;
      config := Merge(config, options);
      MergeKeys(before, options, "");
      assert Keys(config)[..|Defaults|] == Keys(before)[..|Defaults|];
    }

    /** buildConfig(): one "-key=value" item per option, joined by single spaces. */
    method BuildConfig() returns (flags: string)
      ensures flags == Join(" ", FlagItems(config))
    {
      var options: seq<string> := [];
      for i := 0 to |config|
        invariant options == FlagItems(config[..i])
      {
        var (key, val) := config[i];
        options := options + [Flag(key, val)];
      }
      assert config[..|config|] == config;
      flags := Join(" ", options);
    }

    /** $this->config['report-type'] */
    function ReportType(): string
      reads this
    {
      Lookup(config, "report-type").GetOr("")
    }

    /**
     * analysis($sql): the prepared SQL goes to the analyzer started with the
     * command line fixed at construction; its output is decoded according to
     * the report type the options hold now.
     */
    method Analysis(sql: string, run: (string, string) -> string, jsonDecode: string -> Option<JsonValue>)
      returns (result: AnalysisResult)
      ensures var data := run(cmd, PrepareSql(sql));
              result == DecodeReport(ReportType(), data, jsonDecode(data))
    {
      var prepared := PrepareSql(sql);
      var data := run(cmd, prepared);
      result := DecodeReport(ReportType(), data, jsonDecode(data));
    }
  }

  /** With the defaults alone, buildConfig() gives the three default flags. */
  lemma DefaultFlagString()
    ensures FlagString(Defaults) == "-report-type=json" + " " + "-allow-online-as-test=true" + " " + "-sampling=false"
  {
    var items := FlagItems(Defaults);
    var a, b, c := "-report-type=json", "-allow-online-as-test=true", "-sampling=false";
    assert items[0] == a by {
      assert Flag("report-type", "json") == a;
    }
    assert items[1] == b by {
      assert "-" + "allow-online-as-test" == "-allow-online-as-test";
      assert "-allow-online-as-test" + "=" + "true" == b;
    }
    assert items[2] == c by {
      assert Flag("sampling", "false") == c;
    }
    assert items[1..][1..] == [c];
    assert Join(" ", items[1..][1..]) == c;
    assert Join(" ", items[1..]) == b + " " + c;
    assert Join(" ", items) == a + " " + (b + " " + c);
  }

  /**
   * The command line is fixed at construction: after config() switches the
   * report type away from "json", the analyzer is still started with
   * "-report-type=json", while analysis() now hands back the raw output.
   */
  method ReconfiguredAnalysis(binary: string, sql: string, run: (string, string) -> string,
                              jsonDecode: string -> Option<JsonValue>)
    returns (before: string, after: string, result: AnalysisResult)
    ensures before == after == binary + " " + ("-report-type=json" + " " + "-allow-online-as-test=true" + " " + "-sampling=false")
    ensures result == Raw(run(after, PrepareSql(sql)))
  {
    var soar := new Soar(binary, []);
    assert soar.config == Defaults;
    DefaultFlagString();
    before := soar.cmd;
    var options := [("report-type", "text")];
    soar.Config(options);
    assert LastValue(options, "report-type") == Some("text");
    assert soar.ReportType() == "text";
    after := soar.cmd;
    result := soar.Analysis(sql, run, jsonDecode);
  }
}
