/** SQL LIKE patterns, the regular expressions the ORM emits for them, and how a regex engine reads
    those back. */
module Like {
  import opened Options

  /** When two characters count as the same; the `i` option makes this coarser than equality. */
  type Fold = (char, char) -> bool

  // ---- SQL LIKE without an escape character ----

  predicate Likes(p: string, s: string, same: Fold) {
    if p == [] then s == []
    else if p[0] == '%' then exists k :: 0 <= k <= |s| && Likes(p[1..], s[k..], same)
    else s != [] && (p[0] == '_' || same(p[0], s[0])) && Likes(p[1..], s[1..], same)
  }

  // ---- What the ORM emits ----

  /** The characters regexp.QuoteMeta puts a backslash in front of. */
  predicate IsMeta(c: char) {
    c in "\\.+*?()|[]{}^$"
  }

  function QuoteMeta(p: string): string {
    if p == [] then []
    else (if IsMeta(p[0]) then ['\\', p[0]] else [p[0]]) + QuoteMeta(p[1..])
  }

  function ReplaceAll(s: string, c: char, with: string): string {
    if s == [] then []
    else (if s[0] == c then with else [s[0]]) + ReplaceAll(s[1..], c, with)
  }

  function LikeToRegex(pattern: string): string {
    var quoted := QuoteMeta(pattern);
    var quoted1 := ReplaceAll(quoted, '%', ".*");
    var quoted2 := ReplaceAll(quoted1, '_', ".");
    "^" + quoted2 + "$"
  }

  // ---- How a regex engine reads it ----

  datatype Token = Begin | End | AnyChar | AnyRun | Literal(c: char)

  datatype Regex = Empty | Then(first: Token, rest: Regex)

  /** The part of regular-expression syntax with literals, escapes, `.`, `.*`, `^` and `$`; anything
      else is not understood here. */
  function Tokenize(re: string): Option<Regex> {
    if re == [] then Some(Empty)
    else if re[0] == '\\' then
      if |re| >= 2 && IsMeta(re[1]) then Prepend(Literal(re[1]), Tokenize(re[2..])) else None
    else if re[0] == '.' then
      if |re| >= 2 && re[1] == '*' then Prepend(AnyRun, Tokenize(re[2..])) else Prepend(AnyChar, Tokenize(re[1..]))
    else if re[0] == '^' then Prepend(Begin, Tokenize(re[1..]))
    else if re[0] == '$' then Prepend(End, Tokenize(re[1..]))
    else if IsMeta(re[0]) || (|re| >= 2 && re[1] in "*+?{") then None
    else Prepend(Literal(re[0]), Tokenize(re[1..]))
  }

  function Prepend(t: Token, rest: Option<Regex>): Option<Regex> {
    match rest
    case None => None
    case Some(r) => Some(Then(t, r))
  }

  /** A match of the expression against `s` from position `i` on. As in PCRE, `.` does not match a
      newline and `$` also matches just before a final one. */
  predicate MatchesAt(r: Regex, s: string, i: nat, same: Fold)
    requires i <= |s|
    decreases r
  {
    match r
    case Empty => true
    case Then(t, rest) =>
      match t
      case Begin => i == 0 && MatchesAt(rest, s, i, same)
      case End => (i == |s| || (i == |s| - 1 && s[i] == '\n')) && MatchesAt(rest, s, i, same)
      case AnyChar => i < |s| && s[i] != '\n' && MatchesAt(rest, s, i + 1, same)
      case Literal(c) => i < |s| && same(c, s[i]) && MatchesAt(rest, s, i + 1, same)
      case AnyRun => exists j :: i <= j <= |s| && NoNewline(s, i, j) && MatchesAt(rest, s, j, same)
  }

  predicate NoNewline(s: string, i: nat, j: nat)
    requires i <= j <= |s|
  {
    forall k :: i <= k < j ==> s[k] != '\n'
  }

  /** Whether the regular expression is understood and matches somewhere in the subject. */
  predicate RegexMatches(re: string, s: string, same: Fold) {
    match Tokenize(re)
    case None => false
    case Some(r) => exists i :: 0 <= i <= |s| && MatchesAt(r, s, i, same)
  }

  // ---- The emitted string reads back as one token per pattern character ----

  function TokenOf(c: char): Token {
    if c == '%' then AnyRun else if c == '_' then AnyChar else Literal(c)
  }

  /** The pattern as an expression anchored at its end. */
  function TokensOf(p: string): Regex {
    if p == [] then Then(End, Empty) else Then(TokenOf(p[0]), TokensOf(p[1..]))
  }

  function Emitted(p: string): string {
    ReplaceAll(ReplaceAll(QuoteMeta(p), '%', ".*"), '_', ".")
  }

  lemma {:induction false} ReplaceConcat(a: string, b: string, c: char, with: string)
    ensures ReplaceAll(a + b, c, with) == ReplaceAll(a, c, with) + ReplaceAll(b, c, with)
  {
    if a == [] {
      assert a + b == b;
    } else {
      assert (a + b)[1..] == a[1..] + b;
      ReplaceConcat(a[1..], b, c, with);
    }
  }

  function EmittedChar(c: char): string {
    if c == '%' then ".*" else if c == '_' then "." else if IsMeta(c) then ['\\', c] else [c]
  }

  lemma {:induction false} EmittedCons(p: string)
    requires p != []
    ensures Emitted(p) == EmittedChar(p[0]) + Emitted(p[1..])
  {
    var q := if IsMeta(p[0]) then ['\\', p[0]] else [p[0]];
    ReplaceConcat(q, QuoteMeta(p[1..]), '%', ".*");
    var r := ReplaceAll(q, '%', ".*");
    ReplaceConcat(r, ReplaceAll(QuoteMeta(p[1..]), '%', ".*"), '_', ".");
    EmittedOne(p[0]);
  }

  lemma {:induction false} EmittedOne(c: char)
    ensures ReplaceAll(ReplaceAll(if IsMeta(c) then ['\\', c] else [c], '%', ".*"), '_', ".") == EmittedChar(c)
  {
    var q := if IsMeta(c) then ['\\', c] else [c];
    if IsMeta(c) {
      assert q[1..] == [c] && [c][1..] == [];
      assert ReplaceAll([c], '%', ".*") == [c];
      assert ReplaceAll(q, '%', ".*") == q;
      assert ReplaceAll([c], '_', ".") == [c];
    } else if c == '%' {
      assert ReplaceAll(q, '%', ".*") == ".*";
      assert ".*"[1..] == "*";
      assert ReplaceAll("*", '_', ".") == "*";
    } else {
      assert ReplaceAll(q, '%', ".*") == q;
    }
  }

  /** Nothing the ORM emits begins with a repetition operator, so no token swallows the next one. */
  lemma {:induction false} EmittedHead(p: string, tail: string)
    requires tail == "$"
    ensures var e := Emitted(p) + tail; e != [] && e[0] !in "*+?{"
  {
    if p != [] {
      EmittedCons(p);
    }
  }

  lemma {:induction false} Retokenize(p: string)
    ensures Tokenize(Emitted(p) + "$") == Some(TokensOf(p))
  {
    hide Emitted, Tokenize, EmittedChar;
    if p == [] {
      RetokenizeNone();
    } else {
      var rest := Emitted(p[1..]) + "$";
      EmittedCons(p);
      assert Emitted(p) + "$" == EmittedChar(p[0]) + rest;
      EmittedHead(p[1..], "$");
      Retokenize(p[1..]);
      TokenizeOne(p[0], rest);
    }
  }

  lemma {:induction false} RetokenizeNone()
    ensures Tokenize(Emitted("") + "$") == Some(Then(End, Empty))
  {
    assert Emitted("") + "$" == "$" && "$"[1..] == [];
  }

  lemma {:induction false} TokenizeOne(c: char, rest: string)
    requires rest != [] && rest[0] !in "*+?{"
    ensures Tokenize(EmittedChar(c) + rest) == Prepend(TokenOf(c), Tokenize(rest))
  {
    var e := EmittedChar(c);
    assert (e + rest)[|e|..] == rest;
  }

  lemma {:induction false} RegexTokens(p: string)
    ensures Tokenize(LikeToRegex(p)) == Some(Then(Begin, TokensOf(p)))
  {
    var re := LikeToRegex(p);
    assert re == "^" + (Emitted(p) + "$");
    assert re[1..] == Emitted(p) + "$";
    Retokenize(p);
  }

  // ---- Meaning is preserved ----

  lemma {:induction false} TokensMean(p: string, s: string, i: nat, same: Fold)
    requires i <= |s| && NoNewline(s, 0, |s|)
    ensures MatchesAt(TokensOf(p), s, i, same) <==> Likes(p, s[i..], same)
    decreases |p|
  {
    if p == [] {
    } else if p[0] == '%' {
      RunMeans(p, s, i, same);
    } else if i < |s| {
      TokensMean(p[1..], s, i + 1, same);
      assert s[i..][1..] == s[i + 1..];
    }
  }

  lemma {:induction false} RunMeans(p: string, s: string, i: nat, same: Fold)
    requires i <= |s| && NoNewline(s, 0, |s|) && p != [] && p[0] == '%'
    ensures MatchesAt(TokensOf(p), s, i, same) <==> Likes(p, s[i..], same)
    decreases |p|, 0
  {
    var rest := TokensOf(p[1..]);
    forall j | i <= j <= |s| ensures MatchesAt(rest, s, j, same) <==> Likes(p[1..], s[i..][j - i..], same) {
      TokensMean(p[1..], s, j, same);
      assert s[i..][j - i..] == s[j..];
    }
    if k :| 0 <= k <= |s[i..]| && Likes(p[1..], s[i..][k..], same) {
      assert MatchesAt(rest, s, i + k, same) && NoNewline(s, i, i + k);
    }
    if j :| i <= j <= |s| && NoNewline(s, i, j) && MatchesAt(rest, s, j, same) {
      assert Likes(p[1..], s[i..][j - i..], same);
    }
  }

  /** On newline-free subjects the emitted regular expression accepts exactly what LIKE accepts. */
  lemma {:induction false} LikeIsRegex(p: string, s: string, same: Fold)
    requires '\n' !in s
    ensures RegexMatches(LikeToRegex(p), s, same) <==> Likes(p, s, same)
  {
    RegexTokens(p);
    TokensMean(p, s, 0, same);
    assert s[0..] == s;
    AnchoredAtZero(TokensOf(p), s, same);
  }

  lemma {:induction false} AnchoredAtZero(r: Regex, s: string, same: Fold)
    ensures (exists i :: 0 <= i <= |s| && MatchesAt(Then(Begin, r), s, i, same)) <==> MatchesAt(r, s, 0, same)
  {
    assert MatchesAt(Then(Begin, r), s, 0, same) <==> MatchesAt(r, s, 0, same);
  }

  // ---- And only there ----

  function Underscores(n: nat): string {
    if n == 0 then [] else ['_'] + Underscores(n - 1)
  }

  lemma {:induction false} UnderscoresLike(n: nat, s: string, same: Fold)
    ensures Likes(Underscores(n), s, same) <==> |s| == n
  {
    if n > 0 && s != [] {
      assert Underscores(n)[1..] == Underscores(n - 1);
      UnderscoresLike(n - 1, s[1..], same);
    }
  }

  lemma {:induction false} UnderscoresBeforeNewline(n: nat, s: string, i: nat, same: Fold)
    requires i + n + 1 == |s| && s[|s| - 1] == '\n' && NoNewline(s, i, i + n)
    ensures MatchesAt(TokensOf(Underscores(n)), s, i, same)
  {
    if n > 0 {
      assert Underscores(n)[1..] == Underscores(n - 1);
      UnderscoresBeforeNewline(n - 1, s, i + 1, same);
    }
  }

  ghost predicate Agree(p: string, s: string, same: Fold) {
    RegexMatches(LikeToRegex(p), s, same) <==> Likes(p, s, same)
  }

  /** A final newline is skipped by `$`, so a run of `_` one short accepts the subject. */
  lemma {:induction false} FinalNewlineDisagrees(s: string, same: Fold)
    requires s != [] && s[|s| - 1] == '\n' && NoNewline(s, 0, |s| - 1)
    ensures !Agree(Underscores(|s| - 1), s, same)
  {
    var p := Underscores(|s| - 1);
    UnderscoresLike(|s| - 1, s, same);
    UnderscoresBeforeNewline(|s| - 1, s, 0, same);
    RegexTokens(p);
    AnchoredAtZero(TokensOf(p), s, same);
  }

  /** An inner newline stops `.*`, so `%` rejects the subject. */
  lemma {:induction false} InnerNewlineDisagrees(s: string, i: nat, same: Fold)
    requires i < |s| - 1 && s[i] == '\n'
    ensures !Agree("%", s, same)
  {
    assert "%"[1..] == "";
    assert Likes("%"[1..], s[|s|..], same);
    RegexTokens("%");
    AnchoredAtZero(TokensOf("%"), s, same);
    forall j | 0 <= j <= |s| ensures !(NoNewline(s, 0, j) && MatchesAt(Then(End, Empty), s, j, same)) {
      assert j > i ==> !NoNewline(s, 0, j);
    }
  }

  /** The translation preserves the meaning of every pattern on a subject if and only if the subject
      contains no newline. */
  lemma {:induction false} LikePreservedIff(s: string, same: Fold)
    ensures (forall p :: Agree(p, s, same)) <==> '\n' !in s
  {
    if '\n' !in s {
      forall p ensures Agree(p, s, same) { LikeIsRegex(p, s, same); }
    } else {
      var i :| 0 <= i < |s| && s[i] == '\n';
      if j :| 0 <= j < |s| - 1 && s[j] == '\n' {
        InnerNewlineDisagrees(s, j, same);
      } else {
        FinalNewlineDisagrees(s, same);
      }
    }
  }
}
