/** The string operations the tracker borrows from JavaScript: `trim`,
    `split` on one character or on a line break, `join`, `toLowerCase`,
    `replaceAll("\n", " ")` and `endsWith`. */
module Text {

  /** JavaScript's WhiteSpace and LineTerminator code points: what `trim`
      removes and what `Number()` ignores around a numeral. */
  predicate IsSpace(c: char) {
    var n := c as int;
    n == 0x09 || n == 0x0A || n == 0x0B || n == 0x0C || n == 0x0D || n == 0x20
    || n == 0xA0 || n == 0x1680 || (0x2000 <= n <= 0x200A)
    || n == 0x2028 || n == 0x2029 || n == 0x202F || n == 0x205F
    || n == 0x3000 || n == 0xFEFF
  }

  predicate AllSpace(s: string) {
    forall i :: 0 <= i < |s| ==> IsSpace(s[i])
  }

  /** Neither end is white space. */
  predicate IsTrimmed(s: string) {
    s == [] || (!IsSpace(s[0]) && !IsSpace(s[|s| - 1]))
  }

  /** The first position at or after `i` that does not hold white space,
      `|s|` when there is none. */
  function FirstNonSpace(s: string, i: nat): (k: nat)
    requires i <= |s|
    ensures i <= k <= |s|
    ensures forall j :: i <= j < k ==> IsSpace(s[j])
    ensures k < |s| ==> !IsSpace(s[k])
    decreases |s| - i
  {
    if i < |s| && IsSpace(s[i]) then FirstNonSpace(s, i + 1) else i
  }

  function TrimStart(s: string): (r: string)
    ensures |r| <= |s| && r == s[|s| - |r|..]
    ensures AllSpace(s[..|s| - |r|])
    ensures r == [] || !IsSpace(r[0])
  {
    s[FirstNonSpace(s, 0)..]
  }

  lemma TrimStartKeeps(s: string)
    requires s == [] || !IsSpace(s[0])
    ensures TrimStart(s) == s
  {
    assert FirstNonSpace(s, 0) == 0;
  }

  function TrimEnd(s: string): (r: string)
    ensures |r| <= |s| && r == s[..|r|]
    ensures AllSpace(s[|r|..])
    ensures r == [] || !IsSpace(r[|r| - 1])
  {
    if |s| > 0 && IsSpace(s[|s| - 1]) then
      var r := TrimEnd(s[..|s| - 1]);
      assert s[|r|..] == s[..|s| - 1][|r|..] + [s[|s| - 1]];
      r
    else
      s
  }

  /** `s.trim()`: white space removed from both ends, nothing else. */
  function Trim(s: string): (r: string)
    ensures IsTrimmed(r)
    ensures IsTrimmed(s) ==> r == s
  {
    TrimStart(TrimEnd(s))
  }

  /** What `Trim` keeps is a stretch of `s` with only white space on
      either side of it. */
  lemma TrimCuts(s: string)
    ensures var r := Trim(s);
            exists i :: 0 <= i && i + |r| <= |s| && r == s[i..i + |r|]
                        && AllSpace(s[..i]) && AllSpace(s[i + |r|..])
  {
    var e := TrimEnd(s);
    var r := TrimStart(e);
    var i := |e| - |r|;
    assert r == s[i..i + |r|];
    assert s[..i] == e[..i];
    assert s[i + |r|..] == s[|e|..];
  }

  /** Cutting at a character that is not white space commutes with
      `TrimEnd` of what follows it. */
  lemma {:induction false} TrimEndPast(a: string, c: char, b: string)
    requires !IsSpace(c)
    ensures TrimEnd(a + [c] + b) == a + [c] + TrimEnd(b)
    decreases |b|
  {
    if |b| > 0 && IsSpace(b[|b| - 1]) {
      var b' := b[..|b| - 1];
      assert (a + [c] + b)[..|a + [c] + b| - 1] == a + [c] + b';
      TrimEndPast(a, c, b');
    } else {
      assert |b| == 0 ==> a + [c] + b == a + [c];
    }
  }

  /** White space appended to a string does not change its `TrimEnd`. */
  lemma {:induction false} TrimEndSpaceSuffix(x: string, t: string)
    requires AllSpace(t)
    ensures TrimEnd(x + t) == TrimEnd(x)
    decreases |t|
  {
    if |t| > 0 {
      assert (x + t)[..|x + t| - 1] == x + t[..|t| - 1];
      TrimEndSpaceSuffix(x, t[..|t| - 1]);
    } else {
      assert x + t == x;
    }
  }

  lemma TrimSpaceSuffix(x: string, t: string)
    requires AllSpace(t)
    ensures Trim(x + t) == Trim(x)
  {
    TrimEndSpaceSuffix(x, t);
  }

  /** Trimming removes exactly the white space padding a trimmed text. */
  lemma TrimPadded(a: string, t: string, b: string)
    requires AllSpace(a) && AllSpace(b) && t != [] && IsTrimmed(t)
    ensures Trim(a + t + b) == t
  {
    TrimSpaceSuffix(a + t, b);
    TrimEndVisible(a + t);
    TrimStartPast(a, t);
  }

  lemma TrimEndVisible(s: string)
    requires |s| > 0 && !IsSpace(s[|s| - 1])
    ensures TrimEnd(s) == s
  {
  }

  lemma TrimStartPast(a: string, t: string)
    requires AllSpace(a) && t != [] && !IsSpace(t[0])
    ensures TrimStart(a + t) == t
  {
    var s := a + t;
    assert s[|a|] == t[0];
    assert FirstNonSpace(s, 0) == |a|;
    assert s[|a|..] == t;
  }

  /** `s.split(sep)` for a one-character separator: always at least one
      piece, and no piece holds the separator. */
  function Split(s: string, sep: char): (parts: seq<string>)
    ensures |parts| >= 1
    ensures forall i :: 0 <= i < |parts| ==> sep !in parts[i]
    decreases |s|
  {
    if |s| == 0 then [""]
    else
      var rest := Split(s[1..], sep);
      if s[0] == sep then [""] + rest
      else [[s[0]] + rest[0]] + rest[1..]
  }

  /** Joining the pieces of a split gives back the text. */
  lemma {:induction false} JoinSplit(s: string, sep: char)
    ensures Join(Split(s, sep), sep) == s
    decreases |s|
  {
    if |s| > 0 {
      JoinSplit(s[1..], sep);
      var rest := Split(s[1..], sep);
      if s[0] == sep {
        assert [sep] + s[1..] == s;
      } else {
        var parts := [[s[0]] + rest[0]] + rest[1..];
        assert parts[1..] == rest[1..];
        assert |rest| > 1 ==> Join(rest, sep) == rest[0] + [sep] + Join(rest[1..], sep);
        assert s == [s[0]] + s[1..];
      }
    }
  }

  /** `parts.join(sep)`. */
  function Join(parts: seq<string>, sep: char): string {
    if |parts| == 0 then ""
    else if |parts| == 1 then parts[0]
    else parts[0] + [sep] + Join(parts[1..], sep)
  }

  lemma {:induction false} JoinSnoc(parts: seq<string>, p: string, sep: char)
    requires |parts| >= 1
    ensures Join(parts + [p], sep) == Join(parts, sep) + [sep] + p
    decreases |parts|
  {
    if |parts| > 1 {
      assert (parts + [p])[1..] == parts[1..] + [p];
      JoinSnoc(parts[1..], p, sep);
    }
  }

  lemma {:induction false} JoinAvoids(parts: seq<string>, sep: char, c: char)
    requires c != sep
    requires forall i :: 0 <= i < |parts| ==> c !in parts[i]
    ensures c !in Join(parts, sep)
    decreases |parts|
  {
    if |parts| > 1 {
      JoinAvoids(parts[1..], sep, c);
    }
  }

  lemma {:induction false} SplitPrefix(a: string, sep: char, b: string)
    requires sep !in a
    ensures Split(a + [sep] + b, sep) == [a] + Split(b, sep)
    decreases |a|
  {
    if |a| == 0 {
      assert a + [sep] + b == [sep] + b;
      assert ([sep] + b)[1..] == b;
    } else {
      assert (a + [sep] + b)[1..] == a[1..] + [sep] + b;
      SplitPrefix(a[1..], sep, b);
      assert [a[0]] + a[1..] == a;
    }
  }

  lemma {:induction false} SplitWhole(a: string, sep: char)
    requires sep !in a
    ensures Split(a, sep) == [a]
    decreases |a|
  {
    if |a| > 0 {
      SplitWhole(a[1..], sep);
      assert [a[0]] + a[1..] == a;
    }
  }

  /** `split` undoes `join` when no piece holds the separator. */
  lemma {:induction false} SplitJoin(parts: seq<string>, sep: char)
    requires |parts| >= 1
    requires forall i :: 0 <= i < |parts| ==> sep !in parts[i]
    ensures Split(Join(parts, sep), sep) == parts
    decreases |parts|
  {
    if |parts| == 1 {
      SplitWhole(parts[0], sep);
    } else {
      SplitJoin(parts[1..], sep);
      SplitPrefix(parts[0], sep, Join(parts[1..], sep));
    }
  }

  /** One trailing carriage return removed. */
  function DropCR(s: string): (r: string)
    ensures s == r || s == r + ['\r']
  {
    if |s| > 0 && s[|s| - 1] == '\r' then s[..|s| - 1] else s
  }

  lemma {:induction false} DropCRPast(a: string, c: char, b: string)
    requires c != '\r'
    ensures DropCR(a + [c] + b) == a + [c] + DropCR(b)
  {
    if |b| > 0 {
      assert (a + [c] + b)[..|a + [c] + b| - 1] == a + [c] + b[..|b| - 1];
    } else {
      assert a + [c] + b == a + [c];
    }
  }

  /** `s.split(/\r?\n/)`: the pieces between line feeds, each piece that a
      line feed ends losing the carriage return just before that feed. */
  function Lines(s: string): (ls: seq<string>)
    ensures |ls| >= 1
    ensures forall i :: 0 <= i < |ls| ==> '\n' !in ls[i]
  {
    LinesOf(Split(s, '\n'))
  }

  /** The pieces of a split at line feeds, every piece but the last
      without its trailing carriage return. */
  function LinesOf(ps: seq<string>): (ls: seq<string>)
    ensures |ls| == |ps|
    ensures forall i :: 0 <= i < |ps| - 1 ==> ls[i] == DropCR(ps[i])
    ensures |ps| > 0 ==> ls[|ps| - 1] == ps[|ps| - 1]
    ensures forall i :: 0 <= i < |ps| ==> ls[i] <= ps[i]
  {
    seq(|ps|, i requires 0 <= i < |ps| => if i < |ps| - 1 then DropCR(ps[i]) else ps[i])
  }

  /** The first character of a join is the first character of its first
      piece. */
  lemma JoinHead(parts: seq<string>, sep: char)
    requires |parts| >= 1 && |parts[0]| > 0
    ensures |Join(parts, sep)| > 0 && Join(parts, sep)[0] == parts[0][0]
  {
  }

  /** The last character of a join is the last character of its last
      piece. */
  lemma {:induction false} JoinTail(parts: seq<string>, sep: char)
    requires |parts| >= 1 && |parts[|parts| - 1]| > 0
    ensures var j, p := Join(parts, sep), parts[|parts| - 1];
            |j| > 0 && j[|j| - 1] == p[|p| - 1]
    decreases |parts|
  {
    if |parts| > 1 {
      JoinTail(parts[1..], sep);
    }
  }

  /** Trimming text that starts with a visible character cuts only into
      what follows its last visible `c`. */
  lemma TrimVisibleStart(a: string, c: char, b: string)
    requires |a| > 0 && !IsSpace(a[0]) && !IsSpace(c)
    ensures Trim(a + [c] + b) == a + [c] + TrimEnd(b)
  {
    TrimEndPast(a, c, b);
    var t := a + [c] + TrimEnd(b);
    assert t[0] == a[0];
    TrimStartKeeps(t);
  }

  /** A piece appended to a join, seen as cut at one of its characters. */
  lemma JoinLast(parts: seq<string>, front: string, c: char, tail: string)
    requires |parts| >= 1
    ensures Join(parts + [front + [c] + tail], '\n') == (Join(parts, '\n') + ['\n'] + front) + [c] + tail
  {
    JoinSnoc(parts, front + [c] + tail, '\n');
  }

  /** Trimming lines joined by line feeds, when the first line starts with
      a visible character, cuts only into the last line, and only after its
      last `sep`. */
  lemma TrimJoinedLines(parts: seq<string>, front: string, sep: char, tail: string)
    requires |parts| >= 1 && |parts[0]| > 0 && !IsSpace(parts[0][0]) && !IsSpace(sep)
    ensures Trim(Join(parts + [front + [sep] + tail], '\n'))
            == Join(parts + [front + [sep] + TrimEnd(tail)], '\n')
  {
    var a := Join(parts, '\n') + ['\n'] + front;
    JoinHead(parts, '\n');
    JoinLast(parts, front, sep, tail);
    JoinLast(parts, front, sep, TrimEnd(tail));
    TrimVisibleStart(a, sep, tail);
  }

  /** The lines of pieces joined by line feeds are the pieces, each but the
      last without its one trailing carriage return. */
  lemma LinesOfJoin(parts: seq<string>)
    requires |parts| >= 1
    requires forall i :: 0 <= i < |parts| ==> '\n' !in parts[i]
    ensures |Lines(Join(parts, '\n'))| == |parts|
    ensures forall i :: 0 <= i < |parts| - 1 ==> Lines(Join(parts, '\n'))[i] == DropCR(parts[i])
    ensures Lines(Join(parts, '\n'))[|parts| - 1] == parts[|parts| - 1]
  {
    SplitJoin(parts, '\n');
  }

  /** Text without a line feed is one line. */
  lemma LinesWhole(s: string)
    requires '\n' !in s
    ensures Lines(s) == [s]
  {
    SplitWhole(s, '\n');
  }

  function LowerChar(c: char): char {
    if 'A' <= c <= 'Z' then (c as int + 32) as char else c
  }

  /** `toLowerCase`, for the ASCII letters. */
  function Lowercase(s: string): (r: string)
    ensures |r| == |s|
    ensures forall i :: 0 <= i < |r| ==> !('A' <= r[i] <= 'Z')
    ensures forall i :: 0 <= i < |s| && !('A' <= s[i] <= 'Z') ==> r[i] == s[i]
    ensures forall i :: 0 <= i < |s| && 'A' <= s[i] <= 'Z' ==> r[i] as int == s[i] as int + 32
  {
    seq(|s|, i requires 0 <= i < |s| => LowerChar(s[i]))
  }

  /** `s.replaceAll("\n", " ")`. */
  function ReplaceNewlines(s: string): (r: string)
    ensures |r| == |s| && '\n' !in r
    ensures forall i :: 0 <= i < |s| && s[i] != '\n' ==> r[i] == s[i]
    ensures forall i :: 0 <= i < |s| && s[i] == '\n' ==> r[i] == ' '
  {
    seq(|s|, i requires 0 <= i < |s| => if s[i] == '\n' then ' ' else s[i])
  }

  /** Empty or only white space: what `!s.trim()` tests. */
  predicate Blank(s: string) {
    Trim(s) == ""
  }

  predicate EndsWith(s: string, suffix: string) {
    |suffix| <= |s| && s[|s| - |suffix|..] == suffix
  }
}
