/** utils/plan.go: the bullet-line parser that turns a model reply into a
    plan with explanations, and the "cancel out" merge of two plans. */
module PlanUtils {
  import opened Text
  import opened Seqs
  import opened Models

  // ---------------------------------------------------------------------------
  // The `r/[a-zA-Z0-9_]+` token

  predicate IsWordChar(c: char) {
    'a' <= c <= 'z' || 'A' <= c <= 'Z' || '0' <= c <= '9' || c == '_'
  }

  /** A match of `r/[a-zA-Z0-9_]+` starts at position `i` of `s`. */
  predicate MatchStartsAt(s: string, i: int) {
    0 <= i && i + 2 < |s| && s[i] == 'r' && s[i + 1] == '/' && IsWordChar(s[i + 2])
  }

  /** `r/` followed by one or more word characters. */
  predicate IsSubredditRef(x: string) {
    |x| >= 3 && x[0] == 'r' && x[1] == '/' && forall k :: 2 <= k < |x| ==> IsWordChar(x[k])
  }

  /** `x` is the leftmost-longest match of the pattern in `s`: it starts at the
      first position where a match can start and runs as far as word
      characters go. */
  ghost predicate IsLeftmostLongest(s: string, x: string) {
    exists i :: 0 <= i <= |s| && IsPrefix(x, s[i..])
      && (forall j :: 0 <= j < i ==> !MatchStartsAt(s, j))
      && (i + |x| == |s| || !IsWordChar(s[i + |x|]))
  }

  /** The first position where a match starts, or -1. */
  function FirstMatch(s: string): (i: int)
    ensures -1 <= i < |s|
    ensures i >= 0 ==> MatchStartsAt(s, i)
    ensures forall j :: 0 <= j < |s| && (i < 0 || j < i) ==> !MatchStartsAt(s, j)
  {
    if |s| < 3 then -1
    else if MatchStartsAt(s, 0) then 0
    else
      var t := FirstMatch(s[1..]);
      assert forall j :: 1 <= j < |s| ==> (MatchStartsAt(s, j) <==> MatchStartsAt(s[1..], j - 1));
      if t < 0 then -1 else t + 1
  }

  /** The length of the run of word characters at the start of `s`. */
  function WordRun(s: string): (n: nat)
    ensures n <= |s|
    ensures forall k :: 0 <= k < n ==> IsWordChar(s[k])
    ensures n < |s| ==> !IsWordChar(s[n])
  {
    if |s| == 0 || !IsWordChar(s[0]) then 0 else 1 + WordRun(s[1..])
  }

  /** `extractSubreddit`: the regex's `FindString`, "" when nothing matches. */
  function ExtractSubreddit(line: string): (r: string)
    ensures r == "" <==> forall j :: 0 <= j < |line| ==> !MatchStartsAt(line, j)
    ensures r != "" ==> IsSubredditRef(r)
  {
    var i := FirstMatch(line);
    if i < 0 then "" else line[i..i + 2 + WordRun(line[i + 2..])]
  }

  /** The token found is the leftmost-longest match, as Go's regexp package
      promises for `FindString`. */
  lemma ExtractSubredditLeftmostLongest(line: string)
    ensures var r := ExtractSubreddit(line); r != "" ==> IsLeftmostLongest(line, r)
  {
    var i := FirstMatch(line);
    if i >= 0 {
      var n := WordRun(line[i + 2..]);
      var r := line[i..i + 2 + n];
      assert ExtractSubreddit(line) == r;
      assert i + |r| == |line| || line[i + |r|] == line[i + 2..][n];
      assert IsPrefix(r, line[i..]);
      assert forall j :: 0 <= j < i ==> !MatchStartsAt(line, j);
      assert i + |r| == |line| || !IsWordChar(line[i + |r|]);
    }
  }

  // ---------------------------------------------------------------------------
  // Explanations

  /** The en-dash separator " – ". */
  const EnDashSep: string := [' ', '\U{2013}', ' ']

  /** `extractExplanation`: the trimmed text after the first " - ", failing
      that after the first " – ", failing that "". */
  function ExtractExplanation(line: string): (r: string)
    ensures !Occurs(" - ", line) && !Occurs(EnDashSep, line) ==> r == ""
  {
    var i := IndexOf(line, " - ");
    if i >= 0 then TrimSpace(line[i + 3..])
    else
      var j := IndexOf(line, EnDashSep);
      if j >= 0 then TrimSpace(line[j + 3..]) else ""
  }

  // ---------------------------------------------------------------------------
  // Parsing

  /** The trimmed line is an addition bullet. */
  predicate IsAddLine(line: string) {
    IsPrefix("+ r/", line) || IsPrefix("+r/", line)
  }

  /** The trimmed line is a removal bullet. */
  predicate IsRemoveLine(line: string) {
    IsPrefix("- r/", line) || IsPrefix("-r/", line)
  }

  /** What every parsed plan looks like: only the two action lists and the
      explanations are filled, every entry is a token, and the explanations
      are keyed by exactly the entries. */
  ghost predicate WellParsed(p: Plan) {
    && p.toKeep == [] && !p.viewOnly && p.reply == ""
    && (forall i :: 0 <= i < |p.toAdd| ==> IsSubredditRef(p.toAdd[i]))
    && (forall i :: 0 <= i < |p.toRemove| ==> IsSubredditRef(p.toRemove[i]))
    && p.explanations.Keys == (set x | x in p.toAdd) + (set x | x in p.toRemove)
  }

  /** Puts one entry with its explanation in front of `rest`, in the
      addition list when `add` holds and in the removal list otherwise. The
      explanation already in `rest` for the same entry wins, as the later
      assignment does in the loop. */
  function Prepend(rest: Plan, sub: string, why: string, add: bool): (r: Plan)
    requires IsSubredditRef(sub)
    ensures WellParsed(rest) ==> WellParsed(r)
  {
    var e := map[sub := why] + rest.explanations;
    assert (set x | x in [sub] + rest.toAdd) == {sub} + (set x | x in rest.toAdd);
    assert (set x | x in [sub] + rest.toRemove) == {sub} + (set x | x in rest.toRemove);
    if add then rest.(toAdd := [sub] + rest.toAdd, explanations := e)
    else rest.(toRemove := [sub] + rest.toRemove, explanations := e)
  }

  /** Folds one raw line in front of the plan parsed from the lines after it:
      a `+`/`-` bullet holding a token adds that token, anything else is
      skipped. */
  function ParseLineInto(raw: string, rest: Plan): (r: Plan)
    ensures WellParsed(rest) ==> WellParsed(r)
  {
    var line := TrimSpace(raw);
    var sub := ExtractSubreddit(line);
    if sub == "" || !(IsAddLine(line) || IsRemoveLine(line)) then rest
    else Prepend(rest, sub, ExtractExplanation(line), IsAddLine(line))
  }

  /** The loop of `ParseSubredditPlan` over a sequence of lines. */
  function ParseLines(lines: seq<string>): (r: Plan)
    ensures WellParsed(r)
  {
    if |lines| == 0 then EmptyPlan else ParseLineInto(lines[0], ParseLines(lines[1..]))
  }

  /** `ParseSubredditPlan`. */
  function ParseSubredditPlan(response: string): (r: Plan)
    ensures WellParsed(r)
  {
    ParseLines(Split(response, '\n'))
  }

  /** Two plans read one after the other: lists concatenated, the later
      explanation winning. */
  function Concat(p: Plan, q: Plan): Plan {
    Plan(p.toAdd + q.toAdd, p.toRemove + q.toRemove, [], false, "", p.explanations + q.explanations)
  }

  /** Parsing is line by line: the lines of `a` then `b` give the entries of
      `a` followed by those of `b`, with no deduplication. */
  lemma {:induction false} ParseLinesAppend(a: seq<string>, b: seq<string>)
    ensures ParseLines(a + b) == Concat(ParseLines(a), ParseLines(b))
    decreases |a|
  {
    if |a| == 0 {
      assert a + b == b;
    } else {
      assert (a + b)[0] == a[0] && (a + b)[1..] == a[1..] + b;
      var rest, q := ParseLines(a[1..]), ParseLines(b);
      calc {
        ParseLines(a + b);
        ParseLineInto(a[0], ParseLines(a[1..] + b));
        { ParseLinesAppend(a[1..], b); }
        ParseLineInto(a[0], Concat(rest, q));
        { ParseLineConcat(a[0], rest, q); }
        Concat(ParseLineInto(a[0], rest), q);
        Concat(ParseLines(a), q);
      }
    }
  }

  /** Folding one line commutes with appending later lines' results. */
  lemma ParseLineConcat(raw: string, p: Plan, q: Plan)
    requires WellParsed(p)
    ensures Concat(ParseLineInto(raw, p), q) == ParseLineInto(raw, Concat(p, q))
  {
    var line := TrimSpace(raw);
    var sub := ExtractSubreddit(line);
    if sub != "" && (IsAddLine(line) || IsRemoveLine(line)) {
      PrependConcat(p, q, sub, ExtractExplanation(line), IsAddLine(line));
    }
  }

  lemma PrependConcat(p: Plan, q: Plan, sub: string, why: string, add: bool)
    requires IsSubredditRef(sub) && WellParsed(p)
    ensures Concat(Prepend(p, sub, why, add), q) == Prepend(Concat(p, q), sub, why, add)
  {
    var e := map[sub := why];
    assert e + (p.explanations + q.explanations) == (e + p.explanations) + q.explanations;
  }

  /** A line that is not a `+`/`-` bullet (prose, headers, `=` keeps, blank
      lines) changes nothing. */
  lemma IgnoredLine(pre: seq<string>, raw: string, post: seq<string>)
    requires !IsAddLine(TrimSpace(raw)) && !IsRemoveLine(TrimSpace(raw))
    ensures ParseLines(pre + [raw] + post) == ParseLines(pre + post)
  {
    ParseLinesAppend(pre + [raw], post);
    ParseLinesAppend(pre, [raw]);
    ParseLinesAppend(pre, post);
    SingleLine(raw);
    ConcatEmpty(ParseLines(pre));
  }

  lemma SingleLine(raw: string)
    ensures ParseLines([raw]) == ParseLineInto(raw, EmptyPlan)
  {
    assert [raw][1..] == [];
  }

  lemma ConcatEmpty(p: Plan)
    requires WellParsed(p)
    ensures Concat(p, EmptyPlan) == p
  {
    assert p.explanations + map[] == p.explanations;
  }

  /** A bullet whose line holds no `r/<word>` token is skipped. */
  lemma TokenlessLineIgnored(raw: string)
    requires forall j :: 0 <= j < |TrimSpace(raw)| ==> !MatchStartsAt(TrimSpace(raw), j)
    ensures ParseLines([raw]) == EmptyPlan
  {
  }

  // ---------------------------------------------------------------------------
  // The bullet grammar `<+|-> r/<name>[ - <explanation>]` parses back

  /** A bullet as the model is asked to write it. */
  function Bullet(marker: char, name: string, tail: string): string {
    [marker, ' ', 'r', '/'] + name + tail
  }

  predicate IsName(name: string) {
    |name| > 0 && forall k :: 0 <= k < |name| ==> IsWordChar(name[k])
  }

  lemma {:induction false} BulletToken(marker: char, name: string, tail: string)
    requires marker != 'r' && IsName(name)
    requires tail == "" || !IsWordChar(tail[0])
    ensures ExtractSubreddit(Bullet(marker, name, tail)) == "r/" + name
  {
    var s := Bullet(marker, name, tail);
    assert MatchStartsAt(s, 2);
    assert !MatchStartsAt(s, 0) && !MatchStartsAt(s, 1);
    assert FirstMatch(s) == 2;
    var n := WordRun(s[4..]);
    assert forall k :: 0 <= k < |name| ==> s[4..][k] == name[k];
    assert forall k :: 0 <= k < |name| ==> IsWordChar(s[4..][k]);
    assert n >= |name|;
    if tail == "" {
      assert |s[4..]| == |name|;
    } else {
      assert s[4..][|name|] == tail[0];
    }
    assert s[2..4 + |name|] == "r/" + name;
  }

  /** No " - " starts within the `<marker> r/<name>` head of a bullet. */
  lemma {:induction false} NoDashSepInHead(marker: char, name: string, tail: string)
    requires marker != ' ' && IsName(name)
    ensures forall j :: 0 <= j < 4 + |name| ==> !IsPrefix(" - ", Bullet(marker, name, tail)[j..])
  {
    var s := Bullet(marker, name, tail);
    forall j | 0 <= j < 4 + |name| ensures !IsPrefix(" - ", s[j..]) {
      assert s[j..][0] == s[j];
      if j >= 4 {
        assert s[j] == name[j - 4];
      } else if j == 1 {
        assert s[j..][1] == s[2] == 'r';
      } else {
        assert s[j] != ' ';
      }
    }
  }

  /** A well-formed bullet that trims to itself parses to its one entry with
      the explanation the line yields. */
  lemma {:induction false} BulletParses(marker: char, name: string, tail: string, why: string)
    requires marker == '+' || marker == '-'
    requires IsName(name)
    requires tail == "" || (!IsWordChar(tail[0]) && tail[|tail| - 1] !in Whitespace)
    requires ExtractExplanation(Bullet(marker, name, tail)) == why
    ensures ParseLines([Bullet(marker, name, tail)]) == Plan(
      if marker == '+' then ["r/" + name] else [],
      if marker == '-' then ["r/" + name] else [],
      [], false, "", map["r/" + name := why])
  {
    BulletFacts(marker, name, tail);
    BulletLine(Bullet(marker, name, tail), "r/" + name, why, marker == '+');
  }

  lemma BulletFacts(marker: char, name: string, tail: string)
    requires marker == '+' || marker == '-'
    requires IsName(name)
    requires tail == "" || (!IsWordChar(tail[0]) && tail[|tail| - 1] !in Whitespace)
    ensures var raw := Bullet(marker, name, tail);
      TrimSpace(raw) == raw && ExtractSubreddit(raw) == "r/" + name
      && (IsAddLine(raw) <==> marker == '+') && (IsRemoveLine(raw) <==> marker == '-')
  {
    BulletShape(marker, name, tail);
    BulletToken(marker, name, tail);
  }

  /** A one-line reply that is a bullet parses to that bullet's entry. */
  lemma BulletLine(raw: string, sub: string, why: string, add: bool)
    requires TrimSpace(raw) == raw && ExtractSubreddit(raw) == sub && sub != ""
    requires IsAddLine(raw) == add && (add || IsRemoveLine(raw))
    requires ExtractExplanation(raw) == why
    ensures ParseLines([raw]) == Plan(if add then [sub] else [], if add then [] else [sub], [], false, "", map[sub := why])
  {
    SingleLine(raw);
    assert map[sub := why] + map[] == map[sub := why];
  }

  /** A bullet trims to itself and its marker decides its list. */
  lemma BulletShape(marker: char, name: string, tail: string)
    requires marker !in Whitespace
    requires IsName(name)
    requires tail == "" || tail[|tail| - 1] !in Whitespace
    ensures TrimSpace(Bullet(marker, name, tail)) == Bullet(marker, name, tail)
    ensures IsAddLine(Bullet(marker, name, tail)) <==> marker == '+'
    ensures IsRemoveLine(Bullet(marker, name, tail)) <==> marker == '-'
  {
    var line := Bullet(marker, name, tail);
    assert line[0] == marker;
    BulletLastChar(marker, name, tail);
    BulletMarker(marker, name, tail);
  }

  lemma BulletLastChar(marker: char, name: string, tail: string)
    requires IsName(name)
    ensures var line := Bullet(marker, name, tail);
      line[|line| - 1] == if tail == "" then name[|name| - 1] else tail[|tail| - 1]
  {
  }

  lemma BulletMarker(marker: char, name: string, tail: string)
    ensures IsAddLine(Bullet(marker, name, tail)) <==> marker == '+'
    ensures IsRemoveLine(Bullet(marker, name, tail)) <==> marker == '-'
  {
    var line := Bullet(marker, name, tail);
    assert line[..4] == [marker, ' ', 'r', '/'];
    assert line[..3] == [marker, ' ', 'r'];
  }

  /** `<marker> r/<name> - <reason>`: the name is the entry and the trimmed
      reason its explanation. */
  lemma {:induction false} DashBulletRoundTrip(marker: char, name: string, reason: string)
    requires marker == '+' || marker == '-'
    requires IsName(name)
    requires |reason| > 0 && reason[|reason| - 1] !in Whitespace
    ensures ParseLines([Bullet(marker, name, " - " + reason)]) == Plan(
      if marker == '+' then ["r/" + name] else [],
      if marker == '-' then ["r/" + name] else [],
      [], false, "", map["r/" + name := TrimSpace(reason)])
  {
    DashExplanation(marker, name, reason);
    BulletParses(marker, name, " - " + reason, TrimSpace(reason));
  }

  lemma {:induction false} DashExplanation(marker: char, name: string, reason: string)
    requires marker != ' ' && IsName(name)
    ensures ExtractExplanation(Bullet(marker, name, " - " + reason)) == TrimSpace(reason)
  {
    var line := Bullet(marker, name, " - " + reason);
    var h := 4 + |name|;
    NoDashSepInHead(marker, name, " - " + reason);
    assert line[h..][..3] == " - ";
    IndexOfAt(line, " - ", h);
    assert line[h + 3..] == reason;
  }

  /** `<marker> r/<name> – <reason>` with an en dash: the same, as long as the
      reason does not itself bring a " - ". */
  lemma {:induction false} EnDashBulletRoundTrip(marker: char, name: string, reason: string)
    requires marker == '+' || marker == '-'
    requires IsName(name)
    requires |reason| > 0 && reason[|reason| - 1] !in Whitespace
    requires !Occurs(" - ", " " + reason)
    ensures ParseLines([Bullet(marker, name, EnDashSep + reason)]) == Plan(
      if marker == '+' then ["r/" + name] else [],
      if marker == '-' then ["r/" + name] else [],
      [], false, "", map["r/" + name := TrimSpace(reason)])
  {
    EnDashExplanation(marker, name, reason);
    var tail := EnDashSep + reason;
    assert tail[0] == ' ' && tail[|tail| - 1] == reason[|reason| - 1];
    BulletParses(marker, name, tail, TrimSpace(reason));
  }

  lemma {:induction false} EnDashExplanation(marker: char, name: string, reason: string)
    requires marker != ' ' && IsName(name)
    requires !Occurs(" - ", " " + reason)
    ensures ExtractExplanation(Bullet(marker, name, EnDashSep + reason)) == TrimSpace(reason)
  {
    var line := Bullet(marker, name, EnDashSep + reason);
    var h := 4 + |name|;
    NoDashInEnDashBullet(marker, name, reason);
    assert line[h..][..3] == EnDashSep;
    forall j | 0 <= j < h ensures !IsPrefix(EnDashSep, line[j..]) {
      assert line[j..][1] == line[j + 1];
      if j + 1 < 4 {
        assert line[j + 1] in {' ', 'r', '/'};
      } else {
        assert j + 1 == h || line[j + 1] == name[j + 1 - 4];
      }
    }
    IndexOfAt(line, EnDashSep, h);
    assert line[h + 3..] == reason;
  }

  lemma {:induction false} NoDashInEnDashBullet(marker: char, name: string, reason: string)
    requires marker != ' ' && IsName(name)
    requires !Occurs(" - ", " " + reason)
    ensures !Occurs(" - ", Bullet(marker, name, EnDashSep + reason))
  {
    var line := Bullet(marker, name, EnDashSep + reason);
    var h := 4 + |name|;
    NoDashSepInHead(marker, name, EnDashSep + reason);
    var head := line[..h + 2];
    assert line == head + (" " + reason);
    forall j | 0 <= j < |head| ensures !IsPrefix(" - ", line[j..]) {
      if j >= h {
        EnDashAt(line, h + 1, j);
      }
    }
    NotOccursAppend(" - ", head, " " + reason);
  }

  /** " - " cannot start at, or just before, an en dash. */
  lemma EnDashAt(line: string, d: nat, j: nat)
    requires d < |line| && line[d] == '\U{2013}'
    requires j == d || j + 1 == d
    ensures !IsPrefix(" - ", line[j..])
  {
    assert line[j..][d - j] == line[d];
  }

  /** `<marker> r/<name>` with no explanation. */
  lemma {:induction false} BareBulletRoundTrip(marker: char, name: string)
    requires marker == '+' || marker == '-'
    requires IsName(name)
    ensures ParseLines([Bullet(marker, name, "")]) == Plan(
      if marker == '+' then ["r/" + name] else [],
      if marker == '-' then ["r/" + name] else [],
      [], false, "", map["r/" + name := ""])
  {
    BareExplanation(marker, name);
    BulletParses(marker, name, "", "");
  }

  lemma {:induction false} BareExplanation(marker: char, name: string)
    requires (marker == '+' || marker == '-') && IsName(name)
    ensures ExtractExplanation(Bullet(marker, name, "")) == ""
  {
    var line := Bullet(marker, name, "");
    NoDashSepInHead(marker, name, "");
    assert |line| == 4 + |name|;
    assert forall j :: 0 <= j <= |line| ==> !IsPrefix(" - ", line[j..]);
    assert '\U{2013}' !in line by {
      forall j | 0 <= j < |line| ensures line[j] != '\U{2013}' {
        if j >= 4 { assert line[j] == name[j - 4]; } else { assert line[j] in {marker, ' ', 'r', '/'}; }
      }
    }
    MissingCharNotOccurs(EnDashSep, line, 1);
  }

  /** A reply made of lines is parsed line by line. */
  lemma ParseJoined(lines: seq<string>)
    requires |lines| >= 1
    requires forall i :: 0 <= i < |lines| ==> '\n' !in lines[i]
    ensures ParseSubredditPlan(Join(lines, '\n')) == ParseLines(lines)
  {
    SplitJoin(lines, '\n');
  }

  /** "+ r/x\n- r/y\n= r/z": one addition, one removal, and the `=` line is
      not part of this grammar. */
  lemma {:induction false} ThreeBulletExample(x: string, y: string, z: string)
    requires IsName(x) && IsName(y) && IsName(z)
    ensures var p := ParseSubredditPlan(Join([Bullet('+', x, ""), Bullet('-', y, ""), Bullet('=', z, "")], '\n'));
      p.toAdd == ["r/" + x] && p.toRemove == ["r/" + y] && p.explanations == map["r/" + x := "", "r/" + y := ""]
  {
    ExampleLines(x, y, z);
    ThreeLines(Bullet('+', x, ""), Bullet('-', y, ""), Bullet('=', z, ""));
    BareBulletRoundTrip('+', x);
    BareBulletRoundTrip('-', y);
    ConcatSingles(ParseLines([Bullet('+', x, "")]), ParseLines([Bullet('-', y, "")]), "r/" + x, "r/" + y);
  }

  lemma ExampleLines(x: string, y: string, z: string)
    requires IsName(x) && IsName(y) && IsName(z)
    ensures '\n' !in Bullet('+', x, "") && '\n' !in Bullet('-', y, "") && '\n' !in Bullet('=', z, "")
    ensures !IsAddLine(TrimSpace(Bullet('=', z, ""))) && !IsRemoveLine(TrimSpace(Bullet('=', z, "")))
  {
    BulletChars('+', x);
    BulletChars('-', y);
    BulletChars('=', z);
    BulletShape('=', z, "");
  }

  lemma ConcatSingles(p: Plan, q: Plan, sa: string, sb: string)
    requires p == Plan([sa], [], [], false, "", map[sa := ""])
    requires q == Plan([], [sb], [], false, "", map[sb := ""])
    ensures var r := Concat(p, q);
      r.toAdd == [sa] && r.toRemove == [sb] && r.explanations == map[sa := "", sb := ""]
  {
    assert map[sa := ""] + map[sb := ""] == map[sa := "", sb := ""];
  }

  /** Three lines of which the last is no bullet parse as the first two. */
  lemma ThreeLines(a: string, b: string, c: string)
    requires '\n' !in a && '\n' !in b && '\n' !in c
    requires !IsAddLine(TrimSpace(c)) && !IsRemoveLine(TrimSpace(c))
    ensures ParseSubredditPlan(Join([a, b, c], '\n')) == Concat(ParseLines([a]), ParseLines([b]))
  {
    ParseJoined([a, b, c]);
    DropLastLine(a, b, c);
    TwoLines(a, b);
  }

  lemma DropLastLine(a: string, b: string, c: string)
    requires !IsAddLine(TrimSpace(c)) && !IsRemoveLine(TrimSpace(c))
    ensures ParseLines([a, b, c]) == ParseLines([a, b])
  {
    IgnoredLine([a, b], c, []);
    assert [a, b] + [c] + [] == [a, b, c] && [a, b] + [] == [a, b];
  }

  lemma TwoLines(a: string, b: string)
    ensures ParseLines([a, b]) == Concat(ParseLines([a]), ParseLines([b]))
  {
    ParseLinesAppend([a], [b]);
    assert [a] + [b] == [a, b];
  }

  lemma BulletChars(marker: char, name: string)
    requires IsName(name) && marker != '\n'
    ensures '\n' !in Bullet(marker, name, "")
  {
    var s := Bullet(marker, name, "");
    forall j | 0 <= j < |s| ensures s[j] != '\n' {
      if j >= 4 { assert s[j] == name[j - 4]; }
    }
  }

  /** The parser does not deduplicate: two identical addition lines give two
      entries. */
  lemma DuplicateLinesKept(name: string)
    requires IsName(name)
    ensures ParseLines([Bullet('+', name, ""), Bullet('+', name, "")]).toAdd == ["r/" + name, "r/" + name]
  {
    BareBulletRoundTrip('+', name);
    RepeatedLine(Bullet('+', name, ""));
  }

  lemma RepeatedLine(raw: string)
    ensures ParseLines([raw, raw]) == Concat(ParseLines([raw]), ParseLines([raw]))
  {
    TwoLines(raw, raw);
  }

  // ---------------------------------------------------------------------------
  // Merging two plans

  /** `keys`: every member once, in an unspecified order. */
  method Keys(m: set<string>) returns (out: seq<string>)
    ensures forall x :: x in out <==> x in m
    ensures Distinct(out)
    ensures |out| == |m|
  {
    out := [];
    var rest := m;
    while rest != {}
      invariant rest <= m
      invariant forall x :: x in out <==> x in m - rest
      invariant Distinct(out)
      invariant |out| + |rest| == |m|
      decreases rest
    {
      var k :| k in rest;
      out := out + [k];
      rest := rest - {k};
    }
  }

  /** The entries either plan adds, and those either plan removes. */
  ghost function Adds(a: Plan, b: Plan): set<string> {
    (set x | x in a.toAdd) + (set x | x in b.toAdd)
  }

  ghost function Removes(a: Plan, b: Plan): set<string> {
    (set x | x in a.toRemove) + (set x | x in b.toRemove)
  }

  /** `MergePlans`: the union of both plans, where an entry added on one side
      and removed on either cancels out of both lists and loses its
      explanation; otherwise the second plan's explanation wins. */
  method MergePlans(a: Plan, b: Plan) returns (r: Plan)
    ensures forall x :: x in r.toAdd <==> x in Adds(a, b) && x !in Removes(a, b)
    ensures forall x :: x in r.toRemove <==> x in Removes(a, b) && x !in Adds(a, b)
    ensures Distinct(r.toAdd) && Distinct(r.toRemove)
    ensures forall x :: x in r.explanations <==>
      (x in a.explanations || x in b.explanations) && !(x in Adds(a, b) && x in Removes(a, b))
    ensures forall x :: x in r.explanations ==>
      r.explanations[x] == if x in b.explanations then b.explanations[x] else a.explanations[x]
    ensures r.toKeep == [] && !r.viewOnly && r.reply == ""
    ensures WellParsed(a) && WellParsed(b) ==> WellParsed(r)
  {
    var toAdd, toRemove, explanations := CancelConflicts(
      (set x | x in a.toAdd) + (set x | x in b.toAdd),
      (set x | x in a.toRemove) + (set x | x in b.toRemove),
      a.explanations + b.explanations);
    var adds := Keys(toAdd);
    var removes := Keys(toRemove);
    r := Plan(adds, removes, [], false, "", explanations);
    MergeKeepsWellParsed(a, b, r);
  }

  /** The conflict loop of `MergePlans`: every entry in both sets leaves both
      sets and the explanations. */
  method CancelConflicts(adds: set<string>, removes: set<string>, merged: map<string, string>)
    returns (toAdd: set<string>, toRemove: set<string>, explanations: map<string, string>)
    ensures toAdd == adds - removes && toRemove == removes - adds
    ensures explanations.Keys == merged.Keys - (adds * removes)
    ensures forall x :: x in explanations ==> explanations[x] == merged[x]
  {
    toAdd, toRemove, explanations := adds, removes, merged;
    var todo := adds;
    while todo != {}
      invariant todo <= adds
      invariant toAdd == adds - (removes * (adds - todo))
      invariant toRemove == removes - (adds - todo)
      invariant explanations.Keys == merged.Keys - (removes * (adds - todo))
      invariant forall x :: x in explanations ==> explanations[x] == merged[x]
      decreases todo
    {
      var sub :| sub in todo;
      if sub in toRemove {
        toAdd := toAdd - {sub};
        toRemove := toRemove - {sub};
        explanations := explanations - {sub};
      }
      todo := todo - {sub};
    }
  }

  /** Merging two parsed plans gives a parsed plan: the explanations of the
      merge are keyed by exactly its entries. */
  lemma MergeKeepsWellParsed(a: Plan, b: Plan, r: Plan)
    requires forall x :: x in r.toAdd <==> x in Adds(a, b) && x !in Removes(a, b)
    requires forall x :: x in r.toRemove <==> x in Removes(a, b) && x !in Adds(a, b)
    requires forall x :: x in r.explanations <==>
      (x in a.explanations || x in b.explanations) && !(x in Adds(a, b) && x in Removes(a, b))
    requires r.toKeep == [] && !r.viewOnly && r.reply == ""
    ensures WellParsed(a) && WellParsed(b) ==> WellParsed(r)
  {
    if WellParsed(a) && WellParsed(b) {
      forall i | 0 <= i < |r.toAdd| ensures IsSubredditRef(r.toAdd[i]) {
        assert r.toAdd[i] in Adds(a, b);
      }
      forall i | 0 <= i < |r.toRemove| ensures IsSubredditRef(r.toRemove[i]) {
        assert r.toRemove[i] in Removes(a, b);
      }
    }
  }
}
