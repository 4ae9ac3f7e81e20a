/**
 * Unix shell-style wildcard matching, as Python's `fnmatch.fnmatch` does it on
 * POSIX (where `os.path.normcase` leaves names unchanged): `*` matches any run
 * of characters (including `/`), `?` any one character, `[...]` one character
 * of a set (`[!...]` one character outside it), and every other character only
 * itself. A pattern is first compiled into tokens, as `fnmatch.translate`
 * compiles it into a regular expression, then the tokens are matched against
 * the whole name.
 */
module Wildcards {
  import opened Wrappers

  /** One entry of a bracket expression: a single character or a range `lo-hi`. */
  datatype ClassItem = Single(c: char) | Span(lo: char, hi: char)

  datatype Token =
    | Star
    | AnyChar
    | Lit(c: char)
    | Bracket(negated: bool, items: seq<ClassItem>)

  /** Characters that are not literal in a pattern. */
  predicate IsSpecial(c: char) { c == '*' || c == '?' || c == '[' }

  predicate IsLiteralPattern(p: string) { forall i :: 0 <= i < |p| ==> !IsSpecial(p[i]) }

  /**
   * Index of the `]` that closes a bracket whose `[` is at p[0], if there is
   * one. A `!` right after the `[`, and then a `]` right after that, belong to
   * the set and do not close it.
   */
  function BracketEnd(p: string): (r: Option<nat>)
    requires |p| >= 1
    ensures r.Some? ==> 1 <= r.value < |p| && p[r.value] == ']'
  {
    var j0 := if 1 < |p| && p[1] == '!' then 2 else 1;
    var j1 := if j0 < |p| && p[j0] == ']' then j0 + 1 else j0;
    FirstClose(p, j1)
  }

  function FirstClose(p: string, j: nat): (r: Option<nat>)
    requires j >= 1
    ensures r.Some? ==> j <= r.value < |p| && p[r.value] == ']'
    ensures r.Some? ==> forall k :: j <= k < r.value ==> p[k] != ']'
    ensures r.None? ==> forall k :: j <= k < |p| ==> p[k] != ']'
    decreases |p| - j
  {
    if j >= |p| then None else if p[j] == ']' then Some(j) else FirstClose(p, j + 1)
  }

  /**
   * The entries of a bracket body (after any leading `!`): `c-d` is a range
   * whenever a `-` stands between two characters of the body; any other
   * character, `-` included, stands for itself. A range whose bounds are out
   * of order matches nothing, as `fnmatch.translate` drops it.
   */
  function ClassItems(s: string): (r: seq<ClassItem>)
    decreases |s|
  {
    if s == [] then []
    else if |s| >= 3 && s[1] == '-' then [Span(s[0], s[2])] + ClassItems(s[3..])
    else [Single(s[0])] + ClassItems(s[1..])
  }

  /** A range whose bounds are out of order. */
  predicate Reversed(item: ClassItem) { item.Span? && item.hi < item.lo }

  /** The entries left once the leading out-of-order ranges are dropped. */
  function DropReversed(items: seq<ClassItem>): (r: seq<ClassItem>)
    ensures |r| <= |items|
    ensures r != [] ==> !Reversed(r[0])
    decreases |items|
  {
    if items != [] && Reversed(items[0]) then DropReversed(items[1..]) else items
  }

  /** What is dropped is the run of out-of-order ranges at the head; the rest is kept as it is. */
  lemma {:induction false} DropReversedSuffix(items: seq<ClassItem>)
    ensures var n := |items| - |DropReversed(items)|;
      && DropReversed(items) == items[n..]
      && forall i :: 0 <= i < n ==> Reversed(items[i])
    decreases |items|
  {
    if items != [] && Reversed(items[0]) {
      DropReversedSuffix(items[1..]);
      var n := |items| - |DropReversed(items)|;
      assert items[1..][n - 1..] == items[n..];
      forall i | 0 <= i < n
        ensures Reversed(items[i])
      {
        if i > 0 { assert items[i] == items[1..][i - 1]; }
      }
    }
  }

  /**
   * Whether dropping the leading out-of-order ranges of a set that is not
   * negated leaves a `!` at the head of the set: `fnmatch.translate` then
   * reads that `!` as a negation.
   */
  predicate BangAfterDropped(items: seq<ClassItem>) {
    var rest := DropReversed(items);
    && |rest| < |items|
    && rest != []
    && (rest[0] == Single('!') || (rest[0].Span? && rest[0].lo == '!'))
  }

  /**
   * The set token of a bracket body. A `!` that heads the set only once the
   * leading out-of-order ranges are dropped negates it too; when that `!` was
   * the low bound of a range, the regular expression `[^-...]` it leaves reads
   * the `-` and the high bound as plain members.
   */
  function BracketToken(body: string): Token {
    if |body| >= 1 && body[0] == '!' then Bracket(true, ClassItems(body[1..]))
    else
      var items := ClassItems(body);
      if BangAfterDropped(items) then
        var rest := DropReversed(items);
        Bracket(true, (if rest[0].Span? then [Single('-'), Single(rest[0].hi)] else []) + rest[1..])
      else Bracket(false, items)
  }

  /** The token sequence a pattern stands for; an unclosed `[` is a literal `[`. */
  function Compile(p: string): (r: seq<Token>)
    decreases |p|
  {
    if p == [] then []
    else if p[0] == '*' then [Star] + Compile(p[1..])
    else if p[0] == '?' then [AnyChar] + Compile(p[1..])
    else if p[0] == '[' then
      (match BracketEnd(p)
       case None => [Lit('[')] + Compile(p[1..])
       case Some(j) => [BracketToken(p[1..j])] + Compile(p[j + 1..]))
    else [Lit(p[0])] + Compile(p[1..])
  }

  predicate InItem(item: ClassItem, c: char) {
    match item
    case Single(d) => c == d
    case Span(lo, hi) => lo <= c <= hi
  }

  predicate InClass(items: seq<ClassItem>, c: char) {
    exists i :: 0 <= i < |items| && InItem(items[i], c)
  }

  predicate TokenAccepts(t: Token, c: char)
    requires !t.Star?
  {
    match t
    case AnyChar => true
    case Lit(d) => c == d
    case Bracket(negated, items) => InClass(items, c) != negated
  }

  /** Whether the whole of `s` is matched by the tokens. */
  predicate MatchTokens(ts: seq<Token>, s: string)
    decreases |ts| + |s|
  {
    if ts == [] then s == []
    else if ts[0].Star? then MatchTokens(ts[1..], s) || (s != [] && MatchTokens(ts, s[1..]))
    else s != [] && TokenAccepts(ts[0], s[0]) && MatchTokens(ts[1..], s[1..])
  }

  /** `fnmatch.fnmatch(name, pattern)`. */
  predicate Fnmatch(name: string, pattern: string) {
    MatchTokens(Compile(pattern), name)
  }

  function Lits(s: string): (r: seq<Token>)
    ensures |r| == |s|
    ensures forall i :: 0 <= i < |s| ==> r[i] == Lit(s[i])
  {
    seq(|s|, i requires 0 <= i < |s| => Lit(s[i]))
  }

  /** A pattern without `*`, `?` or `[` compiles to its characters taken literally. */
  lemma {:induction false} CompileLiteral(p: string)
    requires IsLiteralPattern(p)
    ensures Compile(p) == Lits(p)
  {
    if p != [] {
      CompileLiteral(p[1..]);
      assert Lits(p) == [Lit(p[0])] + Lits(p[1..]);
    }
  }

  lemma {:induction false} CompileAppend(p: string, q: string)
    requires IsLiteralPattern(p)
    ensures Compile(p + q) == Lits(p) + Compile(q)
  {
    if p != [] {
      assert (p + q)[1..] == p[1..] + q;
      CompileAppend(p[1..], q);
      assert Lits(p) == [Lit(p[0])] + Lits(p[1..]);
    } else {
      assert p + q == q;
    }
  }

  lemma {:induction false} MatchLits(s: string, name: string, rest: seq<Token>)
    ensures MatchTokens(Lits(s) + rest, name) <==>
            (|s| <= |name| && name[..|s|] == s && MatchTokens(rest, name[|s|..]))
  {
    if s == [] {
      assert Lits(s) + rest == rest;
    } else {
      var ts := Lits(s) + rest;
      assert ts[0] == Lit(s[0]);
      assert ts[1..] == Lits(s[1..]) + rest;
      if name != [] {
        MatchLits(s[1..], name[1..], rest);
        if |s| <= |name| {
          assert name[1..][|s| - 1..] == name[|s|..];
          assert name[..|s|] == [name[0]] + name[1..][..|s| - 1];
          assert s == [s[0]] + s[1..];
        }
      }
    }
  }

  /** A lone `*` token accepts every string. */
  lemma {:induction false} StarMatchesAll(name: string)
    ensures MatchTokens([Star], name)
    decreases |name|
  {
    assert [Star][1..] == [];
    if name != [] {
      StarMatchesAll(name[1..]);
    }
  }

  /** A pattern without wildcards matches exactly the name equal to it. */
  lemma LiteralMatchesOnlyItself(pattern: string, name: string)
    requires IsLiteralPattern(pattern)
    ensures Fnmatch(name, pattern) <==> name == pattern
  {
    CompileLiteral(pattern);
    MatchLits(pattern, name, []);
    assert Lits(pattern) + [] == Lits(pattern);
  }

  /** `prefix*`, for a literal prefix, matches exactly the names that start with the prefix. */
  lemma PrefixStarMatchesExtensions(prefix: string, name: string)
    requires IsLiteralPattern(prefix)
    ensures Fnmatch(name, prefix + "*") <==> (|prefix| <= |name| && name[..|prefix|] == prefix)
  {
    CompileAppend(prefix, "*");
    assert Compile("*") == [Star];
    MatchLits(prefix, name, [Star]);
    if |prefix| <= |name| {
      StarMatchesAll(name[|prefix|..]);
    }
  }

  // The example of the logger's documentation: the pattern "wall_clock/" + "*" ignores every key
  // that starts with "wall_clock/" and no other.
  lemma WallClockExample(rest: string)
    ensures Fnmatch("wall_clock/" + rest, "wall_clock/*")
    ensures !Fnmatch("throughput/samples", "wall_clock/*")
  {
    var prefix := "wall_clock/";
    assert IsLiteralPattern(prefix);
    assert prefix + "*" == "wall_clock/*";
    var name := prefix + rest;
    PrefixStarMatchesExtensions(prefix, name);
    assert name[..|prefix|] == prefix;
    var other := "throughput/samples";
    PrefixStarMatchesExtensions(prefix, other);
    assert other[..|prefix|][0] != prefix[0];
  }

  /** `?` stands for exactly one character, whichever it is. */
  lemma QuestionMarkMatchesOneChar(name: string)
    ensures Fnmatch(name, "?") <==> |name| == 1
  {
    assert "?"[1..] == [];
    assert Compile("?") == [AnyChar];
    var ts: seq<Token> := [AnyChar];
    assert ts[1..] == [];
    assert MatchTokens(ts, name) <==> name != [] && MatchTokens([], name[1..]);
  }

  lemma {:induction false} FirstCloseAt(p: string, j: nat, e: nat)
    requires 1 <= j <= e < |p| && p[e] == ']'
    requires forall k :: j <= k < e ==> p[k] != ']'
    ensures FirstClose(p, j) == Some(e)
    decreases e - j
  {
    if j < e {
      FirstCloseAt(p, j + 1, e);
    }
  }

  /** A closed bracket expression compiles to one token for its body. */
  lemma CompileBracket(body: string, after: string)
    requires |body| >= 1 && body != "!"
    requires forall k :: 0 <= k < |body| ==> body[k] != ']'
    ensures Compile("[" + body + "]" + after) == [BracketToken(body)] + Compile(after)
  {
    var p := "[" + body + "]" + after;
    var e := |body| + 1;
    assert p[e] == ']';
    forall k | 1 <= k < e
      ensures p[k] != ']'
    {
      assert p[k] == body[k - 1];
    }
    var j0 := if 1 < |p| && p[1] == '!' then 2 else 1;
    assert j0 < e && p[j0] != ']';
    FirstCloseAt(p, j0, e);
    assert BracketEnd(p) == Some(e);
    assert p[1..e] == body;
    assert p[e + 1..] == after;
  }

  lemma SingleTokenMatch(t: Token, c: char)
    requires !t.Star?
    ensures MatchTokens([t], [c]) <==> TokenAccepts(t, c)
  {
    var ts: seq<Token> := [t];
    assert ts[1..] == [];
    assert [c][1..] == [];
  }

  /**
   * A bracket accepts exactly one character of its set, unless dropping its
   * leading out-of-order ranges leaves a `!` at its head.
   */
  lemma BracketMatchesMember(body: string, c: char)
    requires |body| >= 1 && body[0] != '!'
    requires forall k :: 0 <= k < |body| ==> body[k] != ']'
    requires !BangAfterDropped(ClassItems(body))
    ensures Fnmatch([c], "[" + body + "]") <==> InClass(ClassItems(body), c)
  {
    var pattern := "[" + body + "]";
    CompileBracket(body, "");
    assert pattern + "" == pattern;
    SingleTokenMatch(Bracket(false, ClassItems(body)), c);
  }

  /** A negated bracket accepts exactly one character outside its set. */
  lemma NegatedBracketMatchesNonMember(body: string, c: char)
    requires |body| >= 1
    requires forall k :: 0 <= k < |body| ==> body[k] != ']'
    ensures Fnmatch([c], "[!" + body + "]") <==> !InClass(ClassItems(body), c)
  {
    CompileNegated(body);
    SingleTokenMatch(Bracket(true, ClassItems(body)), c);
  }

  lemma CompileNegated(body: string)
    requires |body| >= 1
    requires forall k :: 0 <= k < |body| ==> body[k] != ']'
    ensures Compile("[!" + body + "]") == [Bracket(true, ClassItems(body))]
  {
    var neg := "!" + body;
    NegatedBody(body);
    CompileBracket(neg, "");
    NegatedPattern(body);
    assert neg[1..] == body;
  }

  lemma NegatedPattern(body: string)
    ensures "[!" + body + "]" == "[" + ("!" + body) + "]" + ""
  {
    assert "[!" == "[" + "!";
  }

  lemma NegatedBody(body: string)
    requires |body| >= 1
    requires forall k :: 0 <= k < |body| ==> body[k] != ']'
    ensures |"!" + body| >= 1 && "!" + body != "!"
    ensures forall k :: 0 <= k < |"!" + body| ==> ("!" + body)[k] != ']'
  {
    var neg := "!" + body;
    forall k | 0 <= k < |neg|
      ensures neg[k] != ']'
    {
      if k > 0 { assert neg[k] == body[k - 1]; }
    }
  }

  /**
   * `fnmatch.translate` drops an out-of-order range `lo-hi` at the head of a
   * set; a `!` right after it then negates the rest of the set.
   */
  lemma ReversedRangeThenBang(lo: char, hi: char, rest: string, c: char)
    requires hi < lo && lo != '!' && lo != ']' && hi != ']'
    requires forall k :: 0 <= k < |rest| ==> rest[k] != ']'
    requires |rest| < 2 || rest[0] != '-'
    ensures Fnmatch([c], "[" + ([lo, '-', hi, '!'] + rest) + "]") <==> !InClass(ClassItems(rest), c)
  {
    ReversedBangCompile(lo, hi, rest);
    SingleTokenMatch(Bracket(true, ClassItems(rest)), c);
  }

  lemma ReversedBangCompile(lo: char, hi: char, rest: string)
    requires hi < lo && lo != '!' && lo != ']' && hi != ']'
    requires forall k :: 0 <= k < |rest| ==> rest[k] != ']'
    requires |rest| < 2 || rest[0] != '-'
    ensures Compile("[" + ([lo, '-', hi, '!'] + rest) + "]") == [Bracket(true, ClassItems(rest))]
  {
    var body := [lo, '-', hi, '!'] + rest;
    BangBody(body, [lo, '-', hi, '!'], rest);
    ReversedBangToken(lo, hi, rest);
    CompileBracket(body, "");
    AppendEmpty("[" + body + "]");
  }

  lemma ReversedBangToken(lo: char, hi: char, rest: string)
    requires hi < lo && lo != '!'
    requires |rest| < 2 || rest[0] != '-'
    ensures BracketToken([lo, '-', hi, '!'] + rest) == Bracket(true, ClassItems(rest))
  {
    var body := [lo, '-', hi, '!'] + rest;
    var items := [Single('!')] + ClassItems(rest);
    ReversedBangItems(lo, hi, rest);
    DropLeadingReversed(Span(lo, hi), items);
    BangToken(body, ClassItems(body), items);
    TailOfCons(Single('!'), ClassItems(rest));
  }

  lemma ReversedBangItems(lo: char, hi: char, rest: string)
    requires |rest| < 2 || rest[0] != '-'
    ensures ClassItems([lo, '-', hi, '!'] + rest) == [Span(lo, hi)] + ([Single('!')] + ClassItems(rest))
  {
    Regroup([lo, '-', hi], "!", rest);
    SpanHead(lo, hi, "!" + rest, [lo, '-', hi, '!'] + rest);
    SingleHead('!', rest, "!" + rest);
  }

  lemma DropLeadingReversed(x: ClassItem, items: seq<ClassItem>)
    requires Reversed(x)
    requires items != [] && !Reversed(items[0])
    ensures DropReversed([x] + items) == items
  {
    var xs := [x] + items;
    assert xs[0] == x && xs[1..] == items;
  }

  lemma TailOfCons(x: ClassItem, items: seq<ClassItem>)
    ensures ([x] + items)[1..] == items && [] + ([x] + items)[1..] == items
  {
    assert ([x] + items)[1..] == items;
  }

  /** The token of a body whose leading out-of-order ranges leave a `!` at its head. */
  lemma BangToken(body: string, items: seq<ClassItem>, rest: seq<ClassItem>)
    requires |body| >= 1 && body[0] != '!'
    requires items == ClassItems(body) && rest == DropReversed(items)
    requires |rest| < |items| && rest != []
    requires rest[0] == Single('!') || (rest[0].Span? && rest[0].lo == '!')
    ensures BracketToken(body) ==
      Bracket(true, (if rest[0].Span? then [Single('-'), Single(rest[0].hi)] else []) + rest[1..])
  {
  }

  lemma Regroup(a: string, b: string, c: string)
    ensures (a + b) + c == a + (b + c)
  {
  }

  /** A body that opens with `lo-hi` reads it as a range. */
  lemma SpanHead(lo: char, hi: char, tail: string, body: string)
    requires body == [lo, '-', hi] + tail
    ensures ClassItems(body) == [Span(lo, hi)] + ClassItems(tail)
  {
    assert body[3..] == tail;
  }

  /** A body whose second character is not a range's `-` reads its first character as itself. */
  lemma SingleHead(c: char, tail: string, body: string)
    requires body == [c] + tail
    requires |tail| < 2 || tail[0] != '-'
    ensures ClassItems(body) == [Single(c)] + ClassItems(tail)
  {
    assert body[1..] == tail;
  }

  /**
   * When the `!` left at the head is the low bound of a range `!-top`, the set
   * is negated and `-` and `top` are plain members of it.
   */
  lemma ReversedRangeThenBangRange(lo: char, hi: char, top: char, rest: string, c: char)
    requires hi < lo && lo != '!' && lo != ']' && hi != ']' && top != ']' && '!' <= top
    requires forall k :: 0 <= k < |rest| ==> rest[k] != ']'
    ensures Fnmatch([c], "[" + ([lo, '-', hi, '!', '-', top] + rest) + "]") <==>
            !(c == '-' || c == top || InClass(ClassItems(rest), c))
  {
    ReversedBangRangeCompile(lo, hi, top, rest);
    SingleTokenMatch(Bracket(true, [Single('-'), Single(top)] + ClassItems(rest)), c);
    TwoMoreMembers('-', top, ClassItems(rest), c);
  }

  lemma ReversedBangRangeCompile(lo: char, hi: char, top: char, rest: string)
    requires hi < lo && lo != '!' && lo != ']' && hi != ']' && top != ']' && '!' <= top
    requires forall k :: 0 <= k < |rest| ==> rest[k] != ']'
    ensures Compile("[" + ([lo, '-', hi, '!', '-', top] + rest) + "]") ==
            [Bracket(true, [Single('-'), Single(top)] + ClassItems(rest))]
  {
    var head := [lo, '-', hi, '!', '-', top];
    var body := head + rest;
    NoCloseIn(head);
    BangBody(body, head, rest);
    ReversedBangRangeToken(lo, hi, top, rest);
    CompileBracket(body, "");
    AppendEmpty("[" + body + "]");
  }

  lemma ReversedBangRangeToken(lo: char, hi: char, top: char, rest: string)
    requires hi < lo && lo != '!' && '!' <= top
    ensures BracketToken([lo, '-', hi, '!', '-', top] + rest) ==
            Bracket(true, [Single('-'), Single(top)] + ClassItems(rest))
  {
    var body := [lo, '-', hi, '!', '-', top] + rest;
    var items := [Span('!', top)] + ClassItems(rest);
    ReversedBangRangeItems(lo, hi, top, rest);
    DropLeadingReversed(Span(lo, hi), items);
    BangToken(body, ClassItems(body), items);
    TailOfCons(Span('!', top), ClassItems(rest));
  }

  lemma ReversedBangRangeItems(lo: char, hi: char, top: char, rest: string)
    ensures ClassItems([lo, '-', hi, '!', '-', top] + rest) ==
            [Span(lo, hi)] + ([Span('!', top)] + ClassItems(rest))
  {
    var tail := ['!', '-', top] + rest;
    Regroup([lo, '-', hi], ['!', '-', top], rest);
    SpanHead(lo, hi, tail, [lo, '-', hi, '!', '-', top] + rest);
    SpanHead('!', top, rest, tail);
  }

  lemma TwoMoreMembers(a: char, b: char, items: seq<ClassItem>, c: char)
    ensures InClass([Single(a), Single(b)] + items, c) <==> (c == a || c == b || InClass(items, c))
  {
    var members := [Single(a), Single(b)] + items;
    if InClass(items, c) {
      var i :| 0 <= i < |items| && InItem(items[i], c);
      assert members[i + 2] == items[i];
    }
    if InClass(members, c) {
      var i :| 0 <= i < |members| && InItem(members[i], c);
      if i >= 2 { assert members[i] == items[i - 2]; }
    }
    assert InItem(members[0], a) && InItem(members[1], b);
  }

  lemma NoCloseIn(head: string)
    requires forall k :: 0 <= k < |head| ==> head[k] != ']'
    ensures ']' !in head
  {
  }

  lemma AppendEmpty(s: string)
    ensures s + "" == s
  {
  }

  lemma BangBody(body: string, head: string, rest: string)
    requires body == head + rest
    requires ']' !in head
    requires forall k :: 0 <= k < |rest| ==> rest[k] != ']'
    ensures forall k :: 0 <= k < |body| ==> body[k] != ']'
  {
    forall k | 0 <= k < |body|
      ensures body[k] != ']'
    {
      if k >= |head| { assert body[k] == rest[k - |head|]; } else { assert body[k] == head[k]; }
    }
  }

  /** `[z-a!x]` matches every one-character name but `x`; `[z-a!]` matches every one. */
  lemma ReversedRangeExamples()
    ensures Fnmatch("y", "[z-a!x]") && !Fnmatch("x", "[z-a!x]")
    ensures Fnmatch("q", "[z-a!]")
  {
    ReversedRangeThenBang('z', 'a', "x", 'y');
    ReversedRangeThenBang('z', 'a', "x", 'x');
    ReversedRangeThenBang('z', 'a', "", 'q');
    ExamplePatterns();
    ClassOfX();
  }

  lemma ExamplePatterns()
    ensures "[" + (['z', '-', 'a', '!'] + "x") + "]" == "[z-a!x]"
    ensures "[" + (['z', '-', 'a', '!'] + "") + "]" == "[z-a!]"
  {
  }

  lemma ClassOfX()
    ensures ClassItems("x") == [Single('x')] && InClass(ClassItems("x"), 'x')
  {
    assert InItem(ClassItems("x")[0], 'x');
  }
}
