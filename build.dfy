/**
 * `scan` of the build script: the fenced blocks of the literate document,
 * each with the file name written in its header comment, its code and the
 * document line where the code starts; and the manifest projection of the
 * blocks written to `mapping.json`.
 *
 * The global regular expression
 *
 *     (```js\s+\/\/[ ]+(\S+).*\n)([\s\S]*?)```
 *
 * is modelled by `MatchAt`, which decides a match at one position the way
 * the regular-expression engine's backtracking settles it, and `RegexMatch`,
 * the language the expression denotes; `MatchAtChoice` and `MatchAtComplete`
 * connect the two.
 */
module Build {
  import opened JsObjects
  import LineShift

  // ----- Character classes of the expression -----

  /** `\s`: the white space and line terminator characters of ECMAScript. */
  predicate IsSpace(c: char) {
    || c == '\t' || c == '\n' || c == '\U{000B}' || c == '\U{000C}' || c == '\r' || c == ' '
    || c == '\U{00A0}' || c == '\U{1680}' || ('\U{2000}' <= c <= '\U{200A}')
    || c == '\U{2028}' || c == '\U{2029}' || c == '\U{202F}' || c == '\U{205F}'
    || c == '\U{3000}' || c == '\U{FEFF}'
  }

  /** The line terminators, which `.` does not match. */
  predicate IsLineTerminator(c: char) {
    c == '\n' || c == '\r' || c == '\U{2028}' || c == '\U{2029}'
  }

  /** `[ ]` */
  predicate IsBlank(c: char) {
    c == ' '
  }

  /** `\S` */
  predicate IsTokenChar(c: char) {
    !IsSpace(c)
  }

  /** `.` */
  predicate IsLineChar(c: char) {
    !IsLineTerminator(c)
  }

  lemma LineTerminatorIsSpace(c: char)
    ensures IsLineTerminator(c) ==> IsSpace(c)
  {
  }

  // ----- Scanning primitives -----

  /** An opening ```` ```js ```` starts at `j`. */
  predicate OpensAt(s: string, j: int) {
    0 <= j && j + 5 <= |s| && s[j] == '`' && s[j + 1] == '`' && s[j + 2] == '`' && s[j + 3] == 'j' && s[j + 4] == 's'
  }

  /** `//` starts at `j`. */
  predicate SlashesAt(s: string, j: int) {
    0 <= j && j + 2 <= |s| && s[j] == '/' && s[j + 1] == '/'
  }

  /** A closing fence ```` ``` ```` starts at `j`. */
  predicate IsFence(s: string, j: int) {
    0 <= j && j + 3 <= |s| && s[j] == '`' && s[j + 1] == '`' && s[j + 2] == '`'
  }

  /** The character classes the expression repeats. */
  datatype CharClass = Space | Blank | Token | LineChar

  predicate InClass(c: char, cls: CharClass) {
    match cls
    case Space => IsSpace(c)
    case Blank => IsBlank(c)
    case Token => IsTokenChar(c)
    case LineChar => IsLineChar(c)
  }

  /** Every character of `s[i..j]` is in class `cls`. */
  ghost predicate AllIn(s: string, i: int, j: int, cls: CharClass) {
    0 <= i <= j <= |s| && forall k :: i <= k < j ==> InClass(s[k], cls)
  }

  /** The end of the longest run of `cls` characters from `i`: a greedy repetition. */
  function Span(s: string, i: nat, cls: CharClass): (r: nat)
    requires i <= |s|
    ensures i <= r <= |s|
    decreases |s| - i
  {
    if i == |s| || !InClass(s[i], cls) then i else Span(s, i + 1, cls)
  }

  /** The run `Span` ends is all of class `cls`, and it cannot be extended. */
  lemma {:induction false} SpanRun(s: string, i: nat, cls: CharClass)
    requires i <= |s|
    ensures AllIn(s, i, Span(s, i, cls), cls)
    ensures Span(s, i, cls) < |s| ==> !InClass(s[Span(s, i, cls)], cls)
    decreases |s| - i
  {
    if i < |s| && InClass(s[i], cls) {
      SpanRun(s, i + 1, cls);
    }
  }

  /** The first closing fence at or after `i`, or `|s|` when there is none: a lazy `[\s\S]*?```. */
  function FindFence(s: string, i: nat): (r: nat)
    requires i <= |s|
    ensures i <= r <= |s|
    ensures r < |s| ==> IsFence(s, r)
    decreases |s| - i
  {
    if i == |s| then i else if IsFence(s, i) then i else FindFence(s, i + 1)
  }

  /** `FindFence` stops at the first fence: none lies before it. */
  lemma {:induction false} FindFenceFirst(s: string, i: nat)
    requires i <= |s|
    ensures forall k :: i <= k < FindFence(s, i) ==> !IsFence(s, k)
    decreases |s| - i
  {
    if i < |s| && !IsFence(s, i) {
      FindFenceFirst(s, i + 1);
    }
  }

  // ----- One match -----

  /**
   * A match: the fence at `start`, the `//` at `slashAt`, the name
   * `s[nameStart..nameEnd]`, the code `s[codeStart..codeEnd]` and the closing
   * fence at `codeEnd`. The header, the expression's first group, is
   * `s[start..codeStart]` and ends with the `\n` at `codeStart - 1`.
   */
  datatype Match = Match(start: nat, slashAt: nat, nameStart: nat, nameEnd: nat, codeStart: nat, codeEnd: nat)
  {
    /** Where the search for the next match resumes. */
    function End(): nat {
      codeEnd + 3
    }

    /** The parts come in order inside a text of length `n`. */
    predicate WellFormed(n: nat) {
      start + 5 < slashAt && slashAt + 2 < nameStart < nameEnd < codeStart <= codeEnd && End() <= n
    }
  }

  /**
   * The expression matches `s` from `p` splitting it at `q` (`//`), `r`
   * (name), `t` (after the name), `e` (the header's `\n`) and `c` (the closing
   * fence), by any choice of repetition counts.
   */
  ghost predicate RegexMatch(s: string, p: int, q: int, r: int, t: int, e: int, c: int) {
    && OpensAt(s, p)
    && p + 5 < q && AllIn(s, p + 5, q, Space) && SlashesAt(s, q)
    && q + 2 < r && AllIn(s, q + 2, r, Blank)
    && r < t && AllIn(s, r, t, Token)
    && t <= e < |s| && AllIn(s, t, e, LineChar) && s[e] == '\n'
    && e + 1 <= c && IsFence(s, c)
  }

  /** The match at `p` the engine settles on, if there is one. */
  function MatchAt(s: string, p: nat): (m: Option<Match>)
    ensures m.Some? ==> m.value.start == p && m.value.WellFormed(|s|)
  {
    if !OpensAt(s, p) then None
    else
      var q := Span(s, p + 5, Space);
      if q == p + 5 || !SlashesAt(s, q) then None
      else
        var r := Span(s, q + 2, Blank);
        if r == q + 2 then None
        else
          var t := Span(s, r, Token);
          if t == r then None
          else
            var e := Span(s, t, LineChar);
            if e == |s| || s[e] != '\n' then None
            else
              var c := FindFence(s, e + 1);
              if c == |s| then None
              else Some(Match(p, q, r, t, e + 1, c))
  }

  /**
   * The match found is the one the engine prefers among all splits at `p`:
   * the white space and blank runs are the only ones possible, the name is the
   * longest and the code the shortest.
   */
  lemma MatchAtChoice(s: string, p: nat, q: int, r: int, t: int, e: int, c: int)
    requires RegexMatch(s, p, q, r, t, e, c)
    ensures MatchAt(s, p).Some?
    ensures var m := MatchAt(s, p).value;
            && m.slashAt == q && m.nameStart == r && t <= m.nameEnd
            && m.codeStart == e + 1 && m.codeEnd <= c
  {
    SpanExact(s, p + 5, q, Space);
    assert IsTokenChar(s[r]);
    SpanExact(s, q + 2, r, Blank);
    var t' := Span(s, r, Token);
    SpanAtLeast(s, r, t, Token);
    SpanRun(s, r, Token);
    LineTerminatorIsSpace(s[e]);
    assert t' <= e;
    SpanExact(s, t', e, LineChar);
    FindFenceAtMost(s, e + 1, c);
  }

  /** A run of class `cls` from `i` to `j` followed by another character is exactly what `Span` takes. */
  lemma {:induction false} SpanExact(s: string, i: nat, j: nat, cls: CharClass)
    requires AllIn(s, i, j, cls) && (j < |s| ==> !InClass(s[j], cls))
    ensures Span(s, i, cls) == j
    decreases j - i
  {
    if i < j {
      SpanExact(s, i + 1, j, cls);
    }
  }

  /** `Span` takes at least any run of class `cls` from `i`. */
  lemma {:induction false} SpanAtLeast(s: string, i: nat, j: nat, cls: CharClass)
    requires AllIn(s, i, j, cls)
    ensures j <= Span(s, i, cls)
    decreases j - i
  {
    if i < j {
      SpanAtLeast(s, i + 1, j, cls);
    }
  }

  /** `FindFence` stops at or before any fence from `i` on. */
  lemma {:induction false} FindFenceAtMost(s: string, i: nat, c: nat)
    requires i <= c && IsFence(s, c)
    ensures FindFence(s, i) <= c
    decreases c - i
  {
    if i < c && !IsFence(s, i) {
      FindFenceAtMost(s, i + 1, c);
    }
  }

  /** How the parts of a match the engine settles on were taken. */
  ghost predicate Settled(s: string, m: Match) {
    && OpensAt(s, m.start)
    && m.start + 5 < m.slashAt == Span(s, m.start + 5, Space) && SlashesAt(s, m.slashAt)
    && m.slashAt + 2 < m.nameStart == Span(s, m.slashAt + 2, Blank)
    && m.nameStart < m.nameEnd == Span(s, m.nameStart, Token)
    && m.codeStart - 1 == Span(s, m.nameEnd, LineChar) < |s| && s[m.codeStart - 1] == '\n'
    && m.codeEnd == FindFence(s, m.codeStart) < |s|
  }

  lemma MatchAtParts(s: string, m: Match)
    requires MatchAt(s, m.start) == Some(m)
    ensures Settled(s, m)
  {
  }

  /** A match so taken is a match of the expression, with the longest name and the shortest code. */
  lemma MatchAtSound(s: string, m: Match)
    requires Settled(s, m)
    ensures RegexMatch(s, m.start, m.slashAt, m.nameStart, m.nameEnd, m.codeStart - 1, m.codeEnd)
    ensures m.nameEnd < |s| && IsSpace(s[m.nameEnd])
    ensures forall k :: m.codeStart <= k < m.codeEnd ==> !IsFence(s, k)
  {
    SpanRun(s, m.start + 5, Space);
    SpanRun(s, m.slashAt + 2, Blank);
    SpanRun(s, m.nameStart, Token);
    SpanRun(s, m.nameEnd, LineChar);
    FindFenceFirst(s, m.codeStart);
  }

  /** The expression matches at `p` exactly when `MatchAt` finds a match there. */
  lemma MatchAtComplete(s: string, p: nat)
    ensures MatchAt(s, p).Some? <==> exists q, r, t, e, c :: RegexMatch(s, p, q, r, t, e, c)
  {
    if exists q, r, t, e, c :: RegexMatch(s, p, q, r, t, e, c) {
      var q, r, t, e, c :| RegexMatch(s, p, q, r, t, e, c);
      MatchAtChoice(s, p, q, r, t, e, c);
    }
    if MatchAt(s, p).Some? {
      MatchAtParts(s, MatchAt(s, p).value);
      MatchAtSound(s, MatchAt(s, p).value);
    }
  }

  // ----- The global search -----

  /**
   * A sticky matcher over a text of length `n`: what it finds at `p` starts
   * at `p` and fits in the text. The global search is stated for any such
   * matcher; `Matcher(s)` is the expression's.
   */
  ghost predicate Sticky(n: nat, at: nat -> Option<Match>) {
    forall p: nat :: at(p).Some? ==> at(p).value.start == p && at(p).value.WellFormed(n)
  }

  /**
   * The successive matches of a global search from `pos`: the match at the
   * first position where there is one, then the matches after its end.
   */
  function Search(n: nat, at: nat -> Option<Match>, pos: nat): (ms: seq<Match>)
    requires Sticky(n, at)
    ensures forall i :: 0 <= i < |ms| ==> pos <= ms[i].start && ms[i].WellFormed(n)
    decreases n + 1 - pos
  {
    if pos > n then []
    else
      match at(pos)
      case Some(m) => [m] + Search(n, at, m.End())
      case None => Search(n, at, pos + 1)
  }

  /** A match at `pos` is the search's first match; the rest follow its end. */
  lemma SearchHit(n: nat, at: nat -> Option<Match>, pos: nat, m: Match)
    requires Sticky(n, at) && pos <= n && at(pos) == Some(m)
    ensures Search(n, at, pos) == [m] + Search(n, at, m.End())
  {
  }

  /** No match at `pos`: the search moves on by one position. */
  lemma SearchMiss(n: nat, at: nat -> Option<Match>, pos: nat)
    requires Sticky(n, at) && pos <= n && at(pos).None?
    ensures Search(n, at, pos) == Search(n, at, pos + 1)
  {
  }

  /** Every match of the search is the match at its own start. */
  lemma {:induction false} SearchFound(n: nat, at: nat -> Option<Match>, pos: nat, i: nat)
    requires Sticky(n, at) && i < |Search(n, at, pos)|
    ensures at(Search(n, at, pos)[i].start) == Some(Search(n, at, pos)[i])
    decreases n + 1 - pos
  {
    match at(pos)
    case Some(m) =>
      var rest := Search(n, at, m.End());
      if i > 0 {
        assert Search(n, at, pos)[i] == rest[i - 1];
        SearchFound(n, at, m.End(), i - 1);
      }
    case None =>
      SearchFound(n, at, pos + 1, i);
  }

  /** The matches do not overlap and come in document order. */
  lemma {:induction false} SearchDisjoint(n: nat, at: nat -> Option<Match>, pos: nat, i: nat, j: nat)
    requires Sticky(n, at) && i < j < |Search(n, at, pos)|
    ensures Search(n, at, pos)[i].End() <= Search(n, at, pos)[j].start
    decreases n + 1 - pos
  {
    match at(pos)
    case Some(m) =>
      var rest := Search(n, at, m.End());
      assert Search(n, at, pos)[j] == rest[j - 1];
      if i > 0 {
        assert Search(n, at, pos)[i] == rest[i - 1];
        SearchDisjoint(n, at, m.End(), i - 1, j - 1);
      }
    case None =>
      SearchDisjoint(n, at, pos + 1, i, j);
  }

  /** The search skips no match: before its first match nothing matches. */
  lemma {:induction false} SearchFirst(n: nat, at: nat -> Option<Match>, pos: nat, p: nat)
    requires Sticky(n, at) && pos <= p <= n
    requires Search(n, at, pos) == [] || p < Search(n, at, pos)[0].start
    ensures at(p).None?
    decreases p - pos
  {
    if at(pos).None? && pos < p {
      SearchFirst(n, at, pos + 1, p);
    }
  }

  /** ... and after one match the next is the first match after its end. */
  lemma {:induction false} SearchGap(n: nat, at: nat -> Option<Match>, pos: nat, i: nat, p: nat)
    requires Sticky(n, at) && i < |Search(n, at, pos)| && Search(n, at, pos)[i].End() <= p <= n
    requires i + 1 == |Search(n, at, pos)| || p < Search(n, at, pos)[i + 1].start
    ensures at(p).None?
    decreases n + 1 - pos
  {
    match at(pos)
    case Some(m) =>
      var ms := Search(n, at, pos);
      var rest := Search(n, at, m.End());
      if i == 0 {
        assert rest == [] || rest[0] == ms[1];
        SearchFirst(n, at, m.End(), p);
      } else {
        assert ms[i] == rest[i - 1];
        assert i + 1 == |ms| || ms[i + 1] == rest[i];
        SearchGap(n, at, m.End(), i - 1, p);
      }
    case None =>
      SearchGap(n, at, pos + 1, i, p);
  }

  /** The expression's matcher: `MatchAt` at every position of `s`. */
  function Matcher(s: string): nat -> Option<Match> {
    (p: nat) => MatchAt(s, p)
  }

  lemma MatcherSticky(s: string)
    ensures Sticky(|s|, Matcher(s))
  {
  }

  /** The matches of the global expression in `s` from `pos`. */
  function MatchesFrom(s: string, pos: nat): (ms: seq<Match>)
    ensures forall i :: 0 <= i < |ms| ==> ms[i].WellFormed(|s|)
  {
    MatcherSticky(s);
    Search(|s|, Matcher(s), pos)
  }

  // ----- Blocks -----

  /** `{name: 'src/' + name, code, sourceLine}` */
  datatype Block = Block(name: string, code: string, sourceLine: int)

  /** The number of `\n` in `s`. */
  function NewlineCount(s: string): nat
    decreases |s|
  {
    if s == [] then 0 else NewlineCount(s[..|s| - 1]) + (if s[|s| - 1] == '\n' then 1 else 0)
  }

  /** `s.split('\n')` */
  function Split(s: string): (r: seq<string>)
    ensures |r| == NewlineCount(s) + 1
    decreases |s|
  {
    if s == [] then [""]
    else
      var r0 := Split(s[..|s| - 1]);
      var c := s[|s| - 1];
      if c == '\n' then r0 + [""] else r0[..|r0| - 1] + [r0[|r0| - 1] + [c]]
  }

  /** The pieces joined back with `\n`. */
  function Join(pieces: seq<string>): string
    decreases |pieces|
  {
    if pieces == [] then "" else if |pieces| == 1 then pieces[0] else Join(pieces[..|pieces| - 1]) + "\n" + pieces[|pieces| - 1]
  }

  /** Splitting at `\n` loses nothing. */
  lemma {:induction false} SplitJoin(s: string)
    ensures Join(Split(s)) == s
    decreases |s|
  {
    if s != [] {
      var init := s[..|s| - 1];
      var c := s[|s| - 1];
      var r0 := Split(init);
      SplitJoin(init);
      assert s == init + [c];
      if c == '\n' {
        assert (r0 + [""])[..|r0|] == r0;
      } else if |r0| == 1 {
      } else {
        var r := r0[..|r0| - 1] + [r0[|r0| - 1] + [c]];
        assert r[..|r| - 1] == r0[..|r0| - 1];
        assert Join(r0) == Join(r0[..|r0| - 1]) + "\n" + r0[|r0| - 1];
      }
    }
  }

  /** The 1-based line of position `i` of `s`. */
  function LineOf(s: string, i: nat): nat
    requires i <= |s|
  {
    |Split(s[..i])|
  }

  /** The block a match yields: `sourceLine` is the line count of the text before the code. */
  function BlockOf(s: string, m: Match): Block
    requires m.WellFormed(|s|)
  {
    Block("src/" + s[m.nameStart..m.nameEnd], s[m.codeStart..m.codeEnd], |Split(s[..m.codeStart])|)
  }

  /** The blocks of a list of matches, in order. */
  function Blocks(s: string, ms: seq<Match>): seq<Block>
    requires forall i :: 0 <= i < |ms| ==> ms[i].WellFormed(|s|)
  {
    seq(|ms|, i requires 0 <= i < |ms| => BlockOf(s, ms[i]))
  }

  /** What `scan(data)` returns. */
  function BlocksOf(s: string): seq<Block> {
    Blocks(s, MatchesFrom(s, 0))
  }

  /** A match found contributes its block first. */
  lemma BlocksFromHit(s: string, pos: nat, m: Match)
    requires pos <= |s| && MatchAt(s, pos) == Some(m)
    ensures Blocks(s, MatchesFrom(s, pos)) == [BlockOf(s, m)] + Blocks(s, MatchesFrom(s, m.End()))
  {
    MatcherSticky(s);
    SearchHit(|s|, Matcher(s), pos, m);
    BlocksCons(s, m, MatchesFrom(s, m.End()));
  }

  lemma BlocksCons(s: string, m: Match, rest: seq<Match>)
    requires m.WellFormed(|s|) && forall i :: 0 <= i < |rest| ==> rest[i].WellFormed(|s|)
    ensures Blocks(s, [m] + rest) == [BlockOf(s, m)] + Blocks(s, rest)
  {
    assert forall i :: 0 <= i < |[m] + rest| ==> ([m] + rest)[i].WellFormed(|s|);
  }

  /** A miss contributes nothing. */
  lemma BlocksFromMiss(s: string, pos: nat)
    requires pos <= |s| && MatchAt(s, pos).None?
    ensures Blocks(s, MatchesFrom(s, pos)) == Blocks(s, MatchesFrom(s, pos + 1))
  {
    MatcherSticky(s);
    SearchMiss(|s|, Matcher(s), pos);
  }

  /**
   * `scan(data)`: `data.replace` with the global expression calls back once
   * per match, left to right, and each call pushes the block `BlockOf` builds
   * from the match onto `out`.
   */
  method Scan(data: string) returns (out: seq<Block>)
    ensures out == BlocksOf(data)
  {
    out := [];
    var pos := 0;
    while pos <= |data|
      invariant pos <= |data| + 1
      invariant out + Blocks(data, MatchesFrom(data, pos)) == BlocksOf(data)
      decreases |data| + 1 - pos
    {
      var found := MatchAt(data, pos);
      if found.Some? {
        var m := found.value;
        ghost var rest := Blocks(data, MatchesFrom(data, m.End()));
        BlocksFromHit(data, pos, m);
        PushFront(out, BlockOf(data, m), rest, BlocksOf(data));
        out := out + [BlockOf(data, m)];
        pos := m.End();
      } else {
        BlocksFromMiss(data, pos);
        pos := pos + 1;
      }
    }
  }

  lemma PushFront<T>(xs: seq<T>, x: T, rest: seq<T>, all: seq<T>)
    requires xs + ([x] + rest) == all
    ensures (xs + [x]) + rest == all
  {
    assert (xs + [x]) + rest == xs + ([x] + rest);
  }

  // ----- What the blocks are -----

  /** A document yields no block exactly when the expression matches nowhere in it. */
  lemma NoBlocks(s: string)
    ensures BlocksOf(s) == [] <==> forall p: nat, q, r, t, e, c :: !RegexMatch(s, p, q, r, t, e, c)
  {
    if BlocksOf(s) == [] {
      forall p: nat, q, r, t, e, c ensures !RegexMatch(s, p, q, r, t, e, c) {
        if p <= |s| {
          MatcherSticky(s);
          SearchFirst(|s|, Matcher(s), 0, p);
          MatchAtComplete(s, p);
        }
      }
    } else {
      MatcherSticky(s);
      SearchFound(|s|, Matcher(s), 0, 0);
      var m := MatchesFrom(s, 0)[0];
      MatchAtParts(s, m);
      MatchAtSound(s, m);
    }
  }

  /** The code of a match holds no closing fence. */
  lemma CodeHasNoFence(s: string, m: Match)
    requires MatchAt(s, m.start) == Some(m)
    ensures forall j :: 0 <= j <= |s[m.codeStart..m.codeEnd]| - 3 ==> !IsFence(s[m.codeStart..m.codeEnd], j)
  {
    MatchAtParts(s, m);
    MatchAtSound(s, m);
    NoFenceInside(s, m);
  }

  /** Code no fence starts in holds no fence of its own. */
  lemma NoFenceInside(s: string, m: Match)
    requires m.WellFormed(|s|) && forall k :: m.codeStart <= k < m.codeEnd ==> !IsFence(s, k)
    ensures forall j :: 0 <= j <= |s[m.codeStart..m.codeEnd]| - 3 ==> !IsFence(s[m.codeStart..m.codeEnd], j)
  {
    var code := s[m.codeStart..m.codeEnd];
    forall j | 0 <= j <= |code| - 3 ensures !IsFence(code, j) {
      assert !IsFence(s, m.codeStart + j);
    }
  }

  /**
   * Block `i` comes from a match of the expression: its name is `src/` and the
   * longest non-space token after `//` and blanks on a ```` ```js ```` line, its
   * code is all text after that line up to, not including, the first closing
   * fence, and the code holds no fence.
   */
  lemma BlockContents(s: string, i: nat)
    requires i < |BlocksOf(s)|
    ensures var m := MatchesFrom(s, 0)[i];
            && RegexMatch(s, m.start, m.slashAt, m.nameStart, m.nameEnd, m.codeStart - 1, m.codeEnd)
            && IsSpace(s[m.nameEnd])
            && BlocksOf(s)[i].name == "src/" + s[m.nameStart..m.nameEnd]
            && BlocksOf(s)[i].code == s[m.codeStart..m.codeEnd]
            && (forall j :: 0 <= j <= |BlocksOf(s)[i].code| - 3 ==> !IsFence(BlocksOf(s)[i].code, j))
  {
    var m := MatchesFrom(s, 0)[i];
    FoundSound(s, i);
    NoFenceInside(s, m);
    assert BlocksOf(s)[i] == BlockOf(s, m);
  }

  /** Every match of the search is a match of the expression, with the longest name and the shortest code. */
  lemma FoundSound(s: string, i: nat)
    requires i < |MatchesFrom(s, 0)|
    ensures var m := MatchesFrom(s, 0)[i];
            && RegexMatch(s, m.start, m.slashAt, m.nameStart, m.nameEnd, m.codeStart - 1, m.codeEnd)
            && m.nameEnd < |s| && IsSpace(s[m.nameEnd])
            && forall k :: m.codeStart <= k < m.codeEnd ==> !IsFence(s, k)
  {
    FoundSettled(s, i);
    MatchAtSound(s, MatchesFrom(s, 0)[i]);
  }

  /** Every match of the search is one the engine settles on. */
  lemma FoundSettled(s: string, i: nat)
    requires i < |MatchesFrom(s, 0)|
    ensures Settled(s, MatchesFrom(s, 0)[i])
  {
    MatcherSticky(s);
    SearchFound(|s|, Matcher(s), 0, i);
    MatchAtParts(s, MatchesFrom(s, 0)[i]);
  }

  lemma NewlineCountSnoc(s: string, k: nat)
    requires 0 < k <= |s|
    ensures NewlineCount(s[..k]) == NewlineCount(s[..k - 1]) + (if s[k - 1] == '\n' then 1 else 0)
  {
    assert s[..k][..k - 1] == s[..k - 1];
  }

  lemma {:induction false} NewlineCountConcat(a: string, b: string)
    ensures NewlineCount(a + b) == NewlineCount(a) + NewlineCount(b)
    decreases |b|
  {
    if b != [] {
      assert (a + b)[..|a + b| - 1] == a + b[..|b| - 1];
      NewlineCountConcat(a, b[..|b| - 1]);
    } else {
      assert a + b == a;
    }
  }

  lemma {:induction false} NewlineCountMonotone(s: string, i: nat, j: nat)
    requires i <= j <= |s|
    ensures NewlineCount(s[..i]) <= NewlineCount(s[..j])
    decreases j - i
  {
    if i < j {
      NewlineCountSnoc(s, j);
      NewlineCountMonotone(s, i, j - 1);
    }
  }

  lemma PrefixOfSlice(s: string, i: nat, j: nat, c: nat)
    requires i <= j <= |s| && c <= j - i
    ensures s[i..][..c] == s[i..j][..c]
  {
    assert forall k :: 0 <= k < c ==> s[i..][..c][k] == s[i + k] == s[i..j][..c][k];
  }

  /** The line of position `i + c` is `c`'s line within `s[i..]`, moved down by the lines before `i`. */
  lemma LineOfOffset(s: string, i: nat, c: nat)
    requires i + c <= |s|
    ensures LineOf(s, i + c) == LineOf(s, i) + LineOf(s[i..], c) - 1
  {
    assert s[..i + c] == s[..i] + s[i..][..c];
    NewlineCountConcat(s[..i], s[i..][..c]);
  }

  /** A block whose code follows a `\n` starts on the line after that `\n`. */
  lemma BlockLine(s: string, m: Match)
    requires m.WellFormed(|s|) && s[m.codeStart - 1] == '\n'
    ensures BlockOf(s, m).sourceLine == LineOf(s, m.codeStart)
    ensures BlockOf(s, m).sourceLine == LineOf(s, m.codeStart - 1) + 1 >= 2
  {
    NewlineCountSnoc(s, m.codeStart);
  }

  /** The code of each block starts on line 2 or later, the line after its header. */
  lemma SourceLineAfterHeader(s: string, i: nat)
    requires i < |BlocksOf(s)|
    ensures BlocksOf(s)[i].sourceLine >= 2
    ensures BlocksOf(s)[i].sourceLine == LineOf(s, MatchesFrom(s, 0)[i].codeStart)
  {
    HeaderEnds(s, i);
    BlockLine(s, MatchesFrom(s, 0)[i]);
  }

  /**
   * Line `k` of a block's code is document line `sourceLine + k - 1`: the
   * shift that moves coverage from the generated file into the document.
   */
  lemma CodeLines(s: string, i: nat, c: nat)
    requires i < |BlocksOf(s)| && c <= |BlocksOf(s)[i].code|
    ensures LineOf(s, MatchesFrom(s, 0)[i].codeStart + c)
            == LineShift.Adder(BlocksOf(s)[i].sourceLine)(LineOf(BlocksOf(s)[i].code, c))
  {
    var m := MatchesFrom(s, 0)[i];
    assert BlocksOf(s)[i] == BlockOf(s, m);
    LineOfOffset(s, m.codeStart, c);
    PrefixOfSlice(s, m.codeStart, m.codeEnd, c);
    SourceLineAfterHeader(s, i);
  }

  /** A match after another, its code after a `\n`, starts its code on a later line. */
  lemma LaterMatchLaterLine(s: string, mi: Match, mj: Match)
    requires mi.WellFormed(|s|) && mj.WellFormed(|s|) && s[mj.codeStart - 1] == '\n'
    requires mi.End() <= mj.start
    ensures BlockOf(s, mi).sourceLine < BlockOf(s, mj).sourceLine
  {
    BlockLine(s, mj);
    NewlineCountMonotone(s, mi.codeStart, mj.codeStart - 1);
  }

  /** Later blocks start on later lines. */
  lemma SourceLinesIncrease(s: string, i: nat, j: nat)
    requires i < j < |BlocksOf(s)|
    ensures BlocksOf(s)[i].sourceLine < BlocksOf(s)[j].sourceLine
  {
    var ms := MatchesFrom(s, 0);
    MatcherSticky(s);
    SearchDisjoint(|s|, Matcher(s), 0, i, j);
    HeaderEnds(s, j);
    assert BlocksOf(s)[i] == BlockOf(s, ms[i]) && BlocksOf(s)[j] == BlockOf(s, ms[j]);
    LaterMatchLaterLine(s, ms[i], ms[j]);
  }

  /** The header of every match of the search ends with `\n`. */
  lemma HeaderEnds(s: string, i: nat)
    requires i < |MatchesFrom(s, 0)|
    ensures s[MatchesFrom(s, 0)[i].codeStart - 1] == '\n'
  {
    FoundSettled(s, i);
  }

  // ----- The manifest -----

  /** `omit(file, 'code')`: what `mapping.json` records of a block. */
  datatype ManifestEntry = ManifestEntry(name: string, sourceLine: int)

  /** `files.map(file => omit(file, 'code'))` */
  function Manifest(blocks: seq<Block>): (r: seq<ManifestEntry>)
    ensures |r| == |blocks|
    ensures forall i :: 0 <= i < |blocks| ==> r[i].name == blocks[i].name && r[i].sourceLine == blocks[i].sourceLine
  {
    seq(|blocks|, i requires 0 <= i < |blocks| => ManifestEntry(blocks[i].name, blocks[i].sourceLine))
  }

  /** The manifest drops only the code: putting it back gives the blocks again. */
  lemma ManifestRestore(blocks: seq<Block>)
    ensures seq(|blocks|, i requires 0 <= i < |blocks| => Block(Manifest(blocks)[i].name, blocks[i].code, Manifest(blocks)[i].sourceLine)) == blocks
  {
  }
}
