/**
 * The JavaScript built-ins the application relies on, on `string` (`seq<char>`):
 * `Array.prototype.join` with a one-character separator, `String.prototype.split`
 * on one character (used only as the reference partner of `Join`) and
 * `String.prototype.trim`.
 */
module JsStrings {

  /** `items.join([sep])`: the items, with one `sep` between neighbours; `[].join` is `""`. */
  function Join(items: seq<string>, sep: char): string
    decreases |items|
  {
    if |items| == 0 then ""
    else if |items| == 1 then items[0]
    else items[0] + [sep] + Join(items[1..], sep)
  }

  /** `s.split(c)` for a one-character separator: always at least one piece, `"".split(c) == [""]`. */
  function Split(s: string, c: char): (pieces: seq<string>)
    ensures |pieces| > 0
    ensures forall i :: 0 <= i < |pieces| ==> c !in pieces[i]
    decreases |s|
  {
    if |s| == 0 then [""]
    else if s[0] == c then [""] + Split(s[1..], c)
    else
      var rest := Split(s[1..], c);
      [[s[0]] + rest[0]] + rest[1..]
  }

  /** A word that holds no separator splits into itself. */
  lemma {:induction false} SplitWord(w: string, c: char)
    requires c !in w
    ensures Split(w, c) == [w]
    decreases |w|
  {
    if |w| > 0 {
      assert c !in w[1..] by {
        forall i | 0 <= i < |w[1..]| ensures w[1..][i] != c { assert w[1..][i] == w[i + 1]; }
      }
      SplitWord(w[1..], c);
      assert [w[0]] + w[1..] == w;
    }
  }

  /** Splitting a word followed by the separator peels off that word. */
  lemma {:induction false} SplitAfterWord(w: string, c: char, rest: string)
    requires c !in w
    ensures Split(w + [c] + rest, c) == [w] + Split(rest, c)
    decreases |w|
  {
    var s := w + [c] + rest;
    if |w| == 0 {
      assert s == [c] + rest;
      assert s[1..] == rest;
    } else {
      assert c !in w[1..] by {
        forall i | 0 <= i < |w[1..]| ensures w[1..][i] != c { assert w[1..][i] == w[i + 1]; }
      }
      assert s[0] == w[0];
      assert s[1..] == w[1..] + [c] + rest;
      SplitAfterWord(w[1..], c, rest);
      assert [w[0]] + w[1..] == w;
    }
  }

  /**
   * `Join` puts exactly one separator between neighbours: when no item holds the separator,
   * splitting the joined string gives back the items.
   */
  lemma {:induction false} SplitJoin(items: seq<string>, c: char)
    requires |items| > 0
    requires forall i :: 0 <= i < |items| ==> c !in items[i]
    ensures Split(Join(items, c), c) == items
    decreases |items|
  {
    if |items| == 1 {
      SplitWord(items[0], c);
    } else {
      SplitJoin(items[1..], c);
      SplitAfterWord(items[0], c, Join(items[1..], c));
      assert [items[0]] + items[1..] == items;
    }
  }

  /** Joining two non-empty lists puts one separator between the two joined halves. */
  lemma {:induction false} JoinAppend(a: seq<string>, b: seq<string>, sep: char)
    requires |a| > 0 && |b| > 0
    ensures Join(a + b, sep) == Join(a, sep) + [sep] + Join(b, sep)
    decreases |a|
  {
    if |a| == 1 {
      assert (a + b)[1..] == b;
    } else {
      assert (a + b)[1..] == a[1..] + b;
      JoinAppend(a[1..], b, sep);
    }
  }

  /** The length of a join: every item plus one separator between each two neighbours. */
  lemma {:induction false} JoinLength(items: seq<string>, sep: char)
    requires |items| > 0
    ensures |Join(items, sep)| == TotalLength(items) + |items| - 1
    decreases |items|
  {
    if |items| > 1 {
      JoinLength(items[1..], sep);
    }
  }

  /** The summed length of the items. */
  function TotalLength(items: seq<string>): nat
    decreases |items|
  {
    if |items| == 0 then 0 else |items[0]| + TotalLength(items[1..])
  }

  /**
   * ECMAScript WhiteSpace and LineTerminator code points, which `trim` removes:
   * TAB, VT, FF, SP, NBSP, ZWNBSP, the other Unicode "Zs" space separators,
   * LF, CR, LINE SEPARATOR and PARAGRAPH SEPARATOR.
   */
  predicate IsWhitespace(ch: char) {
    || ch == '\t' || ch == '\U{000B}' || ch == '\U{000C}' || ch == ' '
    || ch == '\U{00A0}' || ch == '\U{FEFF}'
    || ch == '\U{1680}' || ('\U{2000}' <= ch <= '\U{200A}')
    || ch == '\U{202F}' || ch == '\U{205F}' || ch == '\U{3000}'
    || ch == '\n' || ch == '\r' || ch == '\U{2028}' || ch == '\U{2029}'
  }

  /** Every character of `s` is whitespace (true of `""`). */
  predicate IsBlank(s: string) {
    forall i :: 0 <= i < |s| ==> IsWhitespace(s[i])
  }

  /** Drops the leading whitespace: the result is a suffix of `s`, what was dropped is all whitespace, and it does not start with whitespace. */
  function TrimStart(s: string): (r: string)
    ensures |r| <= |s| && r == s[|s| - |r|..]
    ensures IsBlank(s[..|s| - |r|])
    ensures r != "" ==> !IsWhitespace(r[0])
    decreases |s|
  {
    if |s| > 0 && IsWhitespace(s[0]) then TrimStart(s[1..]) else s
  }

  /** Drops the trailing whitespace: the result is a prefix of `s`, what was dropped is all whitespace, and it does not end with whitespace. */
  function TrimEnd(s: string): (r: string)
    ensures |r| <= |s| && r == s[..|r|]
    ensures IsBlank(s[|r|..])
    ensures r != "" ==> !IsWhitespace(r[|r| - 1])
    decreases |s|
  {
    if |s| > 0 && IsWhitespace(s[|s| - 1]) then TrimEnd(s[..|s| - 1]) else s
  }

  /** `s.trim()`. */
  function Trim(s: string): string {
    TrimEnd(TrimStart(s))
  }

  /** `s.trim()` is empty exactly when `s` is all whitespace, in both directions. */
  lemma TrimEmptyIffBlank(s: string)
    ensures Trim(s) == "" <==> IsBlank(s)
  {
  }

  /** `trim` leaves a string that neither starts nor ends with whitespace and that sits in `s` at offset `k` between two all-whitespace runs. */
  lemma TrimIsInfix(s: string) returns (k: nat)
    ensures k + |Trim(s)| <= |s| && s[k..k + |Trim(s)|] == Trim(s)
    ensures IsBlank(s[..k]) && IsBlank(s[k + |Trim(s)|..])
    ensures Trim(s) != "" ==> !IsWhitespace(Trim(s)[0]) && !IsWhitespace(Trim(s)[|Trim(s)| - 1])
  {
    var u := TrimStart(s);
    var t := TrimEnd(u);
    k := |s| - |u|;
    InfixOf(s, k, u, t);
  }

  /** A prefix `t` of the suffix `u` of `s` from offset `k` sits in `s` at `k`. */
  lemma InfixOf(s: string, k: nat, u: string, t: string)
    requires k <= |s| && u == s[k..] && |t| <= |u| && t == u[..|t|]
    ensures k + |t| <= |s| && s[k..k + |t|] == t && s[k + |t|..] == u[|t|..]
  {
  }
}
