/**
 * `parseFile` and `getPath` of `acmParser.py`: the ACM classification
 * tree is read line by line (the file becomes the sequence of lines the
 * file iterator yields, each with its trailing newline), indentation by
 * tabs gives the depth, and a stack of parent ids gives each topic its
 * parent. `getPath` walks the parent links back to the root.
 */
module AcmParser {
  import opened Outcomes

  /** The four dictionaries `parseFile` returns. */
  datatype Topics = Topics(
    names: map<string, nat>,   // topicNames: name -> id
    paths: map<nat, nat>,      // topicPaths: id -> parent id
    ids: map<nat, string>,     // topicIDs: id -> name
    levels: map<nat, nat>)     // levels: id -> depth

  /** The loop's variables: `tid`, `prevTabCount`, the `parents` stack and the dictionaries. */
  datatype Parser = Parser(tid: nat, prevTabs: nat, parents: seq<nat>, topics: Topics)

  const Start := Parser(0, 0, [], Topics(map[], map[], map[], map[]))

  /** The characters `str.strip()` removes by default (Python's `str.isspace`). */
  const Whitespace: set<char> := {
    '\t', '\n', '\U{0B}', '\U{0C}', '\r', '\U{1C}', '\U{1D}', '\U{1E}', '\U{1F}', ' ',
    '\U{85}', '\U{A0}', '\U{1680}', '\U{2000}', '\U{2001}', '\U{2002}', '\U{2003}',
    '\U{2004}', '\U{2005}', '\U{2006}', '\U{2007}', '\U{2008}', '\U{2009}', '\U{200A}',
    '\U{2028}', '\U{2029}', '\U{202F}', '\U{205F}', '\U{3000}'}

  // ---------------------------------------------------------------------
  // String helpers

  /** `s.lstrip(cs)`: drops leading characters of `cs`. */
  function StripLeading(s: string, cs: set<char>): string {
    if s != [] && s[0] in cs then StripLeading(s[1..], cs) else s
  }

  /** `s.rstrip(cs)`: drops trailing characters of `cs`. */
  function StripTrailing(s: string, cs: set<char>): string {
    if s != [] && s[|s| - 1] in cs then StripTrailing(s[..|s| - 1], cs) else s
  }

  /** `lstrip` keeps the longest suffix not starting with a character of `cs`, dropping only such characters. */
  lemma {:induction false} StripLeadingKeeps(s: string, cs: set<char>)
    ensures var r := StripLeading(s, cs);
      |r| <= |s| && r == s[|s| - |r|..] && (r == [] || r[0] !in cs) &&
      forall i | 0 <= i < |s| - |r| :: s[i] in cs
  {
    if s != [] && s[0] in cs {
      StripLeadingKeeps(s[1..], cs);
    }
  }

  /** `rstrip` keeps the longest prefix not ending with a character of `cs`, dropping only such characters. */
  lemma {:induction false} StripTrailingKeeps(s: string, cs: set<char>)
    ensures var r := StripTrailing(s, cs);
      |r| <= |s| && r == s[..|r|] && (r == [] || r[|r| - 1] !in cs) &&
      forall i | |r| <= i < |s| :: s[i] in cs
  {
    if s != [] && s[|s| - 1] in cs {
      StripTrailingKeeps(s[..|s| - 1], cs);
    }
  }

  /** `s.strip(cs)`. */
  function Strip(s: string, cs: set<char>): string {
    StripTrailing(StripLeading(s, cs), cs)
  }

  function LowerChar(c: char): char {
    if 'A' <= c <= 'Z' then (c as int - 'A' as int + 'a' as int) as char else c
  }

  /** `s.lower()` on ASCII letters. */
  function Lower(s: string): string {
    seq(|s|, i requires 0 <= i < |s| => LowerChar(s[i]))
  }

  /** The line with surrounding tabs and then newlines removed; empty means `name[0]` fails. */
  function RawName(line: string): string {
    Strip(Strip(line, {'\t'}), {'\n'})
  }

  /** The stored name: one leading blank dropped, lower-cased, whitespace stripped. */
  function TopicName(raw: string): string
    requires raw != []
  {
    Strip(Lower(if raw[0] == ' ' then raw[1..] else raw), Whitespace)
  }

  /** A stored name has no capital letters. */
  lemma {:induction false} TopicNameLower(raw: string)
    requires raw != []
    ensures forall i | 0 <= i < |TopicName(raw)| :: !('A' <= TopicName(raw)[i] <= 'Z')
  {
    var l := Lower(if raw[0] == ' ' then raw[1..] else raw);
    var a := StripLeading(l, Whitespace);
    StripLeadingKeeps(l, Whitespace);
    StripTrailingKeeps(a, Whitespace);
    forall i | 0 <= i < |TopicName(raw)| ensures !('A' <= TopicName(raw)[i] <= 'Z') {
      assert TopicName(raw)[i] == a[i] == l[|l| - |a| + i];
    }
  }

  /** `line.count("\t")`. */
  function Tabs(line: string): nat {
    if line == [] then 0 else (if line[0] == '\t' then 1 else 0) + Tabs(line[1..])
  }

  // ---------------------------------------------------------------------
  // The parser as a specification

  /**
   * The parent of topic `t` and the new stack: a root line pushes 0, a
   * deeper line pushes the previous id, a shallower line pops one entry
   * per level and reads the top, a line at the same depth reads the top.
   * Popping or reading an empty stack raises `IndexError`.
   */
  function Nest(parents: seq<nat>, prevTabs: nat, tabs: nat, t: nat): Result<(nat, seq<nat>)>
    requires t >= 1
  {
    if tabs == 0 then Ok((0, parents + [0]))
    else if tabs > prevTabs then Ok((t - 1, parents + [t - 1]))
    else if tabs < prevTabs then
      if |parents| <= prevTabs - tabs then Err(IndexError)
      else
        var rest := parents[..|parents| - (prevTabs - tabs)];
        Ok((rest[|rest| - 1], rest))
    else if parents == [] then Err(IndexError)
    else Ok((parents[|parents| - 1], parents))
  }

  /** What a line of the file is to the parser. */
  datatype Line = Blank | Nameless | Entry(name: string, tabs: nat)

  /** A bare newline is skipped; a line with no text raises `IndexError` at `name[0]`. */
  function Scan(line: string): Line {
    if line == "\n" then Blank
    else if RawName(line) == [] then Nameless
    else Entry(TopicName(RawName(line)), Tabs(line))
  }

  /** One pass of the `for line in f` loop. */
  function Step(st: Parser, line: string): Result<Parser> {
    match Scan(line)
    case Blank => Ok(st)
    case Nameless => Err(IndexError)
    case Entry(name, tabs) => Add(st, name, tabs)
  }

  /** Records topic `tid + 1` with the given name and tab count. */
  function Add(st: Parser, name: string, tabs: nat): Result<Parser> {
    var t := st.tid + 1;
    var nest := Nest(st.parents, st.prevTabs, tabs, t);
    if nest.Err? then Err(nest.error)
    else
      var tp := st.topics;
      Ok(Parser(t, tabs, nest.value.1,
                Topics(tp.names[name := t], tp.paths[t := nest.value.0],
                       tp.ids[t := name], tp.levels[t := tabs + 1])))
  }

  /** The parser's state after the given lines. */
  function Run(lines: seq<string>): Result<Parser>
    decreases |lines|
  {
    if lines == [] then Ok(Start)
    else
      var before := Run(lines[..|lines| - 1]);
      if before.Err? then before else Step(before.value, lines[|lines| - 1])
  }

  /** What `parseFile` returns. */
  function Parsed(lines: seq<string>): Result<Topics> {
    var r := Run(lines);
    if r.Err? then Err(r.error) else Ok(r.value.topics)
  }

  // ---------------------------------------------------------------------
  // The parser as the source writes it

  /** `parseFile`, over the lines of the file. */
  method ParseFile(lines: seq<string>) returns (r: Result<Topics>)
    ensures r == Parsed(lines)
  {
    var st := Start;
    for i := 0 to |lines|
      invariant Run(lines[..i]) == Ok(st)
    {
      assert lines[..i + 1][..i] == lines[..i];
      var next := ParseLine(st, lines[i]);
      if next.Err? {
        assert lines[..i + 1] == lines[..i] + [lines[i]];
        PrefixError(lines, i + 1);
        return Err(next.error);
      }
      st := next.value;
    }
    assert lines[..|lines|] == lines;
    r := Ok(st.topics);
  }

  /** The body of the loop for one line. */
  method ParseLine(st: Parser, line: string) returns (r: Result<Parser>)
    ensures r == Step(st, line)
  {
    if line == "\n" {
      return Ok(st);
    }
    var tid := st.tid + 1;
    var name := Strip(Strip(line, {'\t'}), {'\n'});
    if name == [] {
      return Err(IndexError);
    }
    if name[0] == ' ' {
      name := name[1..];
    }
    var tabCount := Tabs(line);
    var parents := st.parents;
    var parent: nat;
    if tabCount == 0 {
      parent := 0;
      parents := parents + [parent];
    } else if tabCount > st.prevTabs {
      parent := tid - 1;
      parents := parents + [parent];
    } else if tabCount < st.prevTabs {
      for j := 0 to st.prevTabs - tabCount
        invariant j <= |st.parents| && parents == st.parents[..|st.parents| - j]
      {
        if parents == [] {
          return Err(IndexError);
        }
        parents := parents[..|parents| - 1];
      }
      if parents == [] {
        return Err(IndexError);
      }
      parent := parents[|parents| - 1];
    } else {
      if parents == [] {
        return Err(IndexError);
      }
      parent := parents[|parents| - 1];
    }
    name := Strip(Lower(name), Whitespace);
    var tp := st.topics;
    r := Ok(Parser(tid, tabCount, parents,
                   Topics(tp.names[name := tid], tp.paths[tid := parent],
                          tp.ids[tid := name], tp.levels[tid := tabCount + 1])));
  }

  lemma {:induction false} PrefixError(lines: seq<string>, i: nat)
    requires i <= |lines| && Run(lines[..i]).Err?
    ensures Run(lines).Err? && Run(lines).error == Run(lines[..i]).error
    decreases |lines| - i
  {
    if i < |lines| {
      assert lines[..i + 1][..i] == lines[..i];
      PrefixError(lines, i + 1);
    } else {
      assert lines[..i] == lines;
    }
  }

  // ---------------------------------------------------------------------
  // What the parser guarantees

  /** The keys of `m` are the ids `1..n`. */
  ghost predicate KeyedUpTo<V>(m: map<nat, V>, n: nat) {
    forall k: nat :: k in m <==> 1 <= k <= n
  }

  /** The lines that produce a topic (all but bare newlines). */
  function NonBlank(lines: seq<string>): (r: seq<string>)
    ensures |r| <= |lines|
    ensures forall i | 0 <= i < |r| :: r[i] != "\n"
  {
    if lines == [] then []
    else if lines[|lines| - 1] == "\n" then NonBlank(lines[..|lines| - 1])
    else NonBlank(lines[..|lines| - 1]) + [lines[|lines| - 1]]
  }

  /** Ids `1..tid` are the keys of the three id-keyed dictionaries. */
  ghost predicate Keyed(st: Parser) {
    KeyedUpTo(st.topics.ids, st.tid) && KeyedUpTo(st.topics.paths, st.tid) && KeyedUpTo(st.topics.levels, st.tid)
  }

  /** Every parent is below its child, and the stack holds only ids already given out. */
  ghost predicate ParentsEarlier(st: Parser) {
    (forall k | k in st.topics.paths :: st.topics.paths[k] < k) &&
    (forall j | 0 <= j < |st.parents| :: st.parents[j] <= st.tid)
  }

  /** The name index and the id index agree, and the name index holds the last id of each name. */
  ghost predicate NamesIndexed(st: Parser) {
    var tp := st.topics;
    (forall name | name in tp.names :: tp.names[name] in tp.ids && tp.ids[tp.names[name]] == name) &&
    (forall k | k in tp.ids :: tp.ids[k] in tp.names && k <= tp.names[tp.ids[k]])
  }

  /** The parser's state is consistent. */
  ghost predicate Consistent(st: Parser) {
    Keyed(st) && ParentsEarlier(st) && NamesIndexed(st)
  }

  /** Each topic's name and level come from its own line. */
  ghost predicate FromLines(st: Parser, lines: seq<string>) {
    var nb := NonBlank(lines);
    st.tid == |nb| &&
    forall k | 1 <= k <= st.tid :: k in st.topics.levels && k in st.topics.ids &&
      Scan(nb[k - 1]).Entry? &&
      st.topics.levels[k] == Scan(nb[k - 1]).tabs + 1 && st.topics.ids[k] == Scan(nb[k - 1]).name
  }

  /** The stack grows only by ids already given out, and every parent is below its child. */
  lemma NestBelow(parents: seq<nat>, prevTabs: nat, tabs: nat, t: nat)
    requires t >= 1 && forall j | 0 <= j < |parents| :: parents[j] < t
    requires Nest(parents, prevTabs, tabs, t).Ok?
    ensures var n := Nest(parents, prevTabs, tabs, t).value;
      n.0 < t && forall j | 0 <= j < |n.1| :: n.1[j] < t
  {
  }

  lemma AddKeyed(st: Parser, name: string, tabs: nat)
    requires Keyed(st) && Add(st, name, tabs).Ok?
    ensures Keyed(Add(st, name, tabs).value)
  {
  }

  lemma AddParentsEarlier(st: Parser, name: string, tabs: nat)
    requires ParentsEarlier(st) && Add(st, name, tabs).Ok?
    ensures ParentsEarlier(Add(st, name, tabs).value)
  {
    NestBelow(st.parents, st.prevTabs, tabs, st.tid + 1);
  }

  lemma AddNamesIndexed(st: Parser, name: string, tabs: nat)
    requires Keyed(st) && NamesIndexed(st) && Add(st, name, tabs).Ok?
    ensures NamesIndexed(Add(st, name, tabs).value)
  {
    var t := st.tid + 1;
    var tp := st.topics;
    var names := tp.names[name := t];
    var ids := tp.ids[t := name];
    assert Add(st, name, tabs).value.topics.names == names;
    assert Add(st, name, tabs).value.topics.ids == ids;
    assert t !in tp.ids;
    forall k | k in ids ensures ids[k] in names && k <= names[ids[k]] {
      if k != t && tp.ids[k] != name {
        assert names[ids[k]] == tp.names[tp.ids[k]];
      }
    }
  }

  lemma AddConsistent(st: Parser, name: string, tabs: nat)
    requires Consistent(st) && Add(st, name, tabs).Ok?
    ensures Consistent(Add(st, name, tabs).value)
  {
    AddKeyed(st, name, tabs);
    AddParentsEarlier(st, name, tabs);
    AddNamesIndexed(st, name, tabs);
  }

  lemma StepConsistent(st: Parser, line: string)
    requires Consistent(st) && Step(st, line).Ok?
    ensures Consistent(Step(st, line).value)
  {
    if Scan(line).Entry? {
      AddConsistent(st, Scan(line).name, Scan(line).tabs);
    }
  }

  /** `Run` on a longer prefix is one `Step` further. */
  lemma RunSnoc(lines: seq<string>, line: string)
    ensures Run(lines + [line]) == if Run(lines).Err? then Run(lines) else Step(Run(lines).value, line)
  {
    assert (lines + [line])[..|lines|] == lines;
  }

  lemma NonBlankSnoc(lines: seq<string>, line: string)
    ensures NonBlank(lines + [line]) == if line == "\n" then NonBlank(lines) else NonBlank(lines) + [line]
  {
    assert (lines + [line])[..|lines|] == lines;
  }

  /** After any lines the parser accepts, its state is consistent. */
  lemma {:induction false} ParsedConsistent(lines: seq<string>)
    requires Run(lines).Ok?
    ensures Consistent(Run(lines).value)
    decreases |lines|
  {
    if lines != [] {
      var init := lines[..|lines| - 1];
      var line := lines[|lines| - 1];
      assert lines == init + [line];
      RunSnoc(init, line);
      ParsedConsistent(init);
      StepConsistent(Run(init).value, line);
    }
  }

  /** A non-blank line adds one id, keeping the earlier ones, with the line's level and name. */
  lemma StepRecords(st: Parser, line: string)
    requires line != "\n" && Step(st, line).Ok?
    ensures var s := Step(st, line).value; var t := st.tid + 1; var l := Scan(line);
      l.Entry? && s.tid == t &&
      s.topics.levels == st.topics.levels[t := l.tabs + 1] &&
      s.topics.ids == st.topics.ids[t := l.name]
  {
  }

  /**
   * After any lines the parser accepts, there is one id per non-blank
   * line, and each id's level is its line's tab count plus one and its
   * name the normalised text of its line.
   */
  lemma {:induction false} ParsedFromLines(lines: seq<string>)
    requires Run(lines).Ok?
    ensures FromLines(Run(lines).value, lines)
    decreases |lines|
  {
    if lines != [] {
      var init := lines[..|lines| - 1];
      var line := lines[|lines| - 1];
      assert lines == init + [line];
      RunSnoc(init, line);
      ParsedFromLines(init);
      FromLinesSnoc(Run(init).value, init, line);
    }
  }

  /** One more line accepted keeps the ids in step with the non-blank lines. */
  lemma {:induction false} FromLinesSnoc(st: Parser, init: seq<string>, line: string)
    requires FromLines(st, init) && Step(st, line).Ok?
    ensures FromLines(if line == "\n" then st else Step(st, line).value, init + [line])
  {
    NonBlankSnoc(init, line);
    if line != "\n" {
      var s1 := Step(st, line).value;
      StepRecords(st, line);
      var nb := NonBlank(init + [line]);
      assert nb == NonBlank(init) + [line];
      forall k | 1 <= k <= s1.tid
        ensures k in s1.topics.levels && k in s1.topics.ids && Scan(nb[k - 1]).Entry? &&
          s1.topics.levels[k] == Scan(nb[k - 1]).tabs + 1 && s1.topics.ids[k] == Scan(nb[k - 1]).name
      {
        if k <= st.tid {
          assert nb[k - 1] == NonBlank(init)[k - 1];
        }
      }
      assert FromLines(s1, init + [line]);
    } else {
      assert NonBlank(init + [line]) == NonBlank(init);
    }
  }

  // ---------------------------------------------------------------------
  // Indentation and errors

  /**
   * Lines the parser accepts without error: every non-blank line has a
   * name and is indented at most one tab deeper than the line before.
   */
  ghost predicate WellIndented(lines: seq<string>) {
    var nb := NonBlank(lines);
    (forall i | 0 <= i < |nb| :: Scan(nb[i]).Entry?) &&
    (|nb| > 0 ==> Scan(nb[0]).tabs <= 1) &&
    (forall i | 0 < i < |nb| :: Scan(nb[i]).tabs <= Scan(nb[i - 1]).tabs + 1)
  }

  /** A step at most one tab deeper keeps at least `prevTabs` entries on the stack. */
  lemma AddKeepsStack(st: Parser, name: string, tabs: nat)
    requires |st.parents| >= st.prevTabs && tabs <= st.prevTabs + 1
    ensures Add(st, name, tabs).Ok?
    ensures |Add(st, name, tabs).value.parents| >= tabs && Add(st, name, tabs).value.prevTabs == tabs
  {
  }

  lemma StepKeepsStack(st: Parser, line: string)
    requires |st.parents| >= st.prevTabs && Scan(line).Entry? && Scan(line).tabs <= st.prevTabs + 1
    ensures Step(st, line).Ok?
    ensures |Step(st, line).value.parents| >= Scan(line).tabs && Step(st, line).value.prevTabs == Scan(line).tabs
  {
    AddKeepsStack(st, Scan(line).name, Scan(line).tabs);
  }

  lemma {:induction false} WellIndentedStack(lines: seq<string>)
    requires WellIndented(lines)
    ensures Run(lines).Ok?
    ensures |Run(lines).value.parents| >= Run(lines).value.prevTabs
    ensures NonBlank(lines) != [] ==> Run(lines).value.prevTabs == Scan(NonBlank(lines)[|NonBlank(lines)| - 1]).tabs
    ensures NonBlank(lines) == [] ==> Run(lines).value.prevTabs == 0
    decreases |lines|
  {
    if lines != [] {
      var init := lines[..|lines| - 1];
      var line := lines[|lines| - 1];
      assert lines == init + [line];
      RunSnoc(init, line);
      NonBlankSnoc(init, line);
      var nb := NonBlank(init);
      assert nb == NonBlank(lines)[..|nb|];
      WellIndentedStack(init);
      if line != "\n" {
        assert NonBlank(lines)[|nb|] == line;
        StepKeepsStack(Run(init).value, line);
      }
    }
  }

  /** A well-indented file parses without error. */
  lemma WellIndentedParses(lines: seq<string>)
    requires WellIndented(lines)
    ensures Parsed(lines).Ok?
  {
    WellIndentedStack(lines);
  }

  /** A line with a character other than a tab or a newline has a name. */
  lemma RawNameFound(line: string, i: nat)
    requires i < |line| && line[i] != '\t' && line[i] != '\n'
    ensures RawName(line) != []
  {
    var a := StripLeading(line, {'\t'});
    StripLeadingKeeps(line, {'\t'});
    var j := i - (|line| - |a|);
    assert 0 <= j < |a| && a[j] == line[i];
    var b := StripTrailing(a, {'\t'});
    StripTrailingKeeps(a, {'\t'});
    assert j < |b| && b[j] == line[i];
    var c := StripLeading(b, {'\n'});
    StripLeadingKeeps(b, {'\n'});
    var j' := j - (|b| - |c|);
    assert 0 <= j' < |c| && c[j'] == line[i];
    StripTrailingKeeps(c, {'\n'});
  }

  /** The two lines of `DedentPastRootFails`'s shape exist: a tab-indented `a` two deep and `b` one deep. */
  lemma DedentLinesExist()
    ensures Scan("\t\ta\n").Entry? && Scan("\t\ta\n").tabs == 2
    ensures Scan("\tb\n").Entry? && Scan("\tb\n").tabs == 1
  {
    var n := "\n";
    assert n[1..] == [] && Tabs(n) == 0;
    var an := "a\n";
    assert an[1..] == n && Tabs(an) == 0;
    var tan := "\ta\n";
    assert tan[1..] == an && Tabs(tan) == 1;
    var a := "\t\ta\n";
    assert a[1..] == tan && Tabs(a) == 2;
    RawNameFound(a, 2);
    var bn := "b\n";
    assert bn[1..] == n && Tabs(bn) == 0;
    var b := "\tb\n";
    assert b[1..] == bn && Tabs(b) == 1;
    RawNameFound(b, 1);
  }

  /** Every error the parser raises is an `IndexError`. */
  lemma {:induction false} OnlyIndexErrors(lines: seq<string>)
    requires Run(lines).Err?
    ensures Run(lines).error == IndexError
    decreases |lines|
  {
    var init := lines[..|lines| - 1];
    if Run(init).Err? {
      OnlyIndexErrors(init);
    }
  }

  /** A line with no text makes the whole parse fail. */
  lemma NamelessLineFails(lines: seq<string>, i: nat)
    requires i < |lines| && Scan(lines[i]) == Nameless
    ensures Parsed(lines) == Err(IndexError)
  {
    assert lines[..i + 1][..i] == lines[..i];
    PrefixError(lines, i + 1);
    OnlyIndexErrors(lines);
  }

  /**
   * A file whose first line is two tabs deep and whose second line is one
   * tab deep pops past the bottom of the stack.
   */
  lemma DedentPastRootFails(a: string, b: string)
    requires Scan(a).Entry? && Scan(a).tabs == 2 && Scan(b).Entry? && Scan(b).tabs == 1
    ensures Parsed([a, b]) == Err(IndexError)
  {
    RunSnoc([], a);
    assert [] + [a] == [a];
    var st := Run([a]).value;
    assert st.parents == [0] && st.prevTabs == 2;
    RunSnoc([a], b);
    assert [a] + [b] == [a, b];
  }

  // ---------------------------------------------------------------------
  // getPath

  /** Every parent id is below its own id: what makes the walk stop. */
  ghost predicate ParentsBelow(paths: map<nat, nat>) {
    forall k | k in paths :: paths[k] < k
  }

  function Prepend(xs: seq<string>, r: Result<seq<string>>): Result<seq<string>> {
    if r.Ok? then Ok(xs + r.value) else r
  }

  lemma PrependNothing(xs: seq<string>, r: Result<seq<string>>)
    requires xs == []
    ensures Prepend(xs, r) == r
  {
    if r.Ok? {
      assert xs + r.value == r.value;
    }
  }

  /** The names of `p` and its ancestors up to the root; a missing id raises `KeyError`. */
  function Ancestors(paths: map<nat, nat>, ids: map<nat, string>, p: nat): Result<seq<string>>
    requires ParentsBelow(paths)
    decreases p
  {
    if p == 0 then Ok([])
    else if p !in ids || p !in paths then Err(KeyError)
    else Prepend([ids[p]], Ancestors(paths, ids, paths[p]))
  }

  /** What `getPath` returns: the keyword, then its ancestors' names. */
  function PathOf(keyword: string, names: map<string, nat>, paths: map<nat, nat>, ids: map<nat, string>): Result<seq<string>>
    requires ParentsBelow(paths)
  {
    if keyword !in names || names[keyword] !in paths then Err(KeyError)
    else Prepend([keyword], Ancestors(paths, ids, paths[names[keyword]]))
  }

  /** `getPath`: the walk up the parent links. */
  method GetPath(keyword: string, topicNames: map<string, nat>, topicPaths: map<nat, nat>, topicIDs: map<nat, string>)
    returns (r: Result<seq<string>>)
    requires ParentsBelow(topicPaths)
    ensures r == PathOf(keyword, topicNames, topicPaths, topicIDs)
  {
    if keyword !in topicNames {
      return Err(KeyError);
    }
    var topicId := topicNames[keyword];
    var path := [keyword];
    if topicId !in topicPaths {
      return Err(KeyError);
    }
    var topicParent := topicPaths[topicId];
    PrependNothing(path[1..], Ancestors(topicPaths, topicIDs, topicParent));
    while topicParent != 0
      invariant |path| >= 1 && path[0] == keyword
      invariant Ancestors(topicPaths, topicIDs, topicPaths[topicId]) ==
                Prepend(path[1..], Ancestors(topicPaths, topicIDs, topicParent))
      decreases topicParent
    {
      if topicParent !in topicIDs || topicParent !in topicPaths {
        assert Ancestors(topicPaths, topicIDs, topicPaths[topicId]) == Err(KeyError);
        return Err(KeyError);
      }
      var curr := topicIDs[topicParent];
      var rest := Ancestors(topicPaths, topicIDs, topicPaths[topicParent]);
      if rest.Ok? {
        assert path[1..] + ([curr] + rest.value) == (path + [curr])[1..] + rest.value;
      }
      path := path + [curr];
      topicParent := topicPaths[topicParent];
    }
    assert path[1..] + [] == path[1..] && path == [keyword] + path[1..];
    assert Ancestors(topicPaths, topicIDs, topicPaths[topicId]) == Ok(path[1..]);
    r := Ok(path);
  }

  /** On a consistent parser state, every ancestor of an id is found. */
  lemma {:induction false} AncestorsFound(st: Parser, p: nat)
    requires Consistent(st) && p <= st.tid
    ensures ParentsBelow(st.topics.paths)
    ensures Ancestors(st.topics.paths, st.topics.ids, p).Ok?
    ensures forall j | 0 <= j < |Ancestors(st.topics.paths, st.topics.ids, p).value| ::
      Ancestors(st.topics.paths, st.topics.ids, p).value[j] in st.topics.names
    decreases p
  {
    if p != 0 {
      AncestorsFound(st, st.topics.paths[p]);
    }
  }

  /** On a consistent parser state, the path of every stored name is found. */
  lemma PathsFound(st: Parser, keyword: string)
    requires Consistent(st) && keyword in st.topics.names
    ensures ParentsBelow(st.topics.paths)
    ensures var tp := st.topics;
      var r := PathOf(keyword, tp.names, tp.paths, tp.ids);
      r.Ok? && r.value[0] == keyword && forall j | 0 <= j < |r.value| :: r.value[j] in tp.names
  {
    AncestorsFound(st, st.topics.paths[st.topics.names[keyword]]);
  }

  /**
   * Stored names are lower-cased, so `getPath` with a keyword holding a
   * capital letter raises `KeyError` on anything `parseFile` built.
   */
  lemma CapitalisedKeywordMissing(lines: seq<string>, keyword: string, i: nat)
    requires Parsed(lines).Ok? && i < |keyword| && 'A' <= keyword[i] <= 'Z'
    ensures ParentsBelow(Parsed(lines).value.paths)
    ensures var tp := Parsed(lines).value;
      keyword !in tp.names && PathOf(keyword, tp.names, tp.paths, tp.ids) == Err(KeyError)
  {
    ParsedConsistent(lines);
    ParsedFromLines(lines);
    var st := Run(lines).value;
    forall name | name in st.topics.names ensures name != keyword {
      StoredNameLower(st, lines, name);
      assert i >= |name| || name[i] != keyword[i];
    }
  }

  /** A name the parser stored came from a line through `TopicName`, so it has no capital. */
  lemma StoredNameLower(st: Parser, lines: seq<string>, name: string)
    requires NamesIndexed(st) && KeyedUpTo(st.topics.ids, st.tid) && FromLines(st, lines)
    requires name in st.topics.names
    ensures forall i | 0 <= i < |name| :: !('A' <= name[i] <= 'Z')
  {
    var k: nat := st.topics.names[name];
    assert k in st.topics.ids && st.topics.ids[k] == name;
    StoredIdLower(st, lines, k);
  }

  lemma StoredIdLower(st: Parser, lines: seq<string>, k: nat)
    requires FromLines(st, lines) && 1 <= k <= st.tid
    ensures k in st.topics.ids && forall i | 0 <= i < |st.topics.ids[k]| :: !('A' <= st.topics.ids[k][i] <= 'Z')
  {
    var nb := NonBlank(lines);
    assert k in st.topics.levels && k in st.topics.ids && Scan(nb[k - 1]).Entry?;
    ScannedNameLower(nb[k - 1]);
  }

  lemma ScannedNameLower(line: string)
    requires Scan(line).Entry?
    ensures forall i | 0 <= i < |Scan(line).name| :: !('A' <= Scan(line).name[i] <= 'Z')
  {
    TopicNameLower(RawName(line));
  }

  /**
   * `getPath` on the dictionaries `parseFile` built succeeds for every
   * stored name: the path starts with the keyword and lists only stored
   * names.
   */
  lemma ParsedPathsFound(lines: seq<string>, keyword: string)
    requires Parsed(lines).Ok? && keyword in Parsed(lines).value.names
    ensures ParentsBelow(Parsed(lines).value.paths)
    ensures var tp := Parsed(lines).value;
      var r := PathOf(keyword, tp.names, tp.paths, tp.ids);
      r.Ok? && r.value[0] == keyword && forall j | 0 <= j < |r.value| :: r.value[j] in tp.names
  {
    ParsedConsistent(lines);
    PathsFound(Run(lines).value, keyword);
  }
}
