/**
 * The `java.lang.String` operations the request handlers rely on, with Java's
 * semantics written out: `split` on a one-character literal delimiter (limit 0,
 * so trailing empty strings are dropped), `trim`, `isBlank`, `startsWith` and
 * the `toLowerCase` used to recognise a header name.
 */
module JavaStrings {

  /** Position of the first `c` in `s`, or `|s|` when `s` has none (`indexOf`, with -1 replaced by `|s|`). */
  function IndexOf(s: string, c: char): (k: nat)
    ensures k <= |s|
    ensures k < |s| ==> s[k] == c
    ensures forall i :: 0 <= i < k ==> s[i] != c
  {
    if |s| == 0 then 0
    else if s[0] == c then 0
    else 1 + IndexOf(s[1..], c)
  }

  lemma IndexOfAbsent(s: string, c: char)
    ensures IndexOf(s, c) == |s| <==> c !in s
  {
    var k := IndexOf(s, c);
    if k < |s| {
      assert s[k] == c;
    } else {
      assert forall i :: 0 <= i < |s| ==> s[i] != c;
    }
  }

  /** Re-joins pieces with the delimiter between them (the inverse of `Pieces`). */
  function Join(ps: seq<string>, d: char): string
    requires |ps| >= 1
  {
    if |ps| == 1 then ps[0] else ps[0] + [d] + Join(ps[1..], d)
  }

  /** Every piece of `s` between occurrences of `d`, empty ones included. */
  function Pieces(s: string, d: char): (ps: seq<string>)
    ensures |ps| >= 1
    ensures forall i :: 0 <= i < |ps| ==> d !in ps[i]
    ensures Join(ps, d) == s
    decreases |s|
  {
    var k := IndexOf(s, d);
    if k == |s| then
      IndexOfAbsent(s, d);
      [s]
    else
      var head := s[..k];
      var rest := Pieces(s[k + 1..], d);
      assert d !in head by {
        forall i | 0 <= i < |head| ensures head[i] != d {
          assert head[i] == s[i];
        }
      }
      var ps := [head] + rest;
      assert ps[1..] == rest;
      assert s == head + [d] + s[k + 1..];
      ps
  }

  /** The pieces of a text holding `d`: the text before its first `d`, then the pieces of the rest. */
  lemma PiecesAtFirst(s: string, d: char)
    requires IndexOf(s, d) < |s|
    ensures Pieces(s, d) == [s[..IndexOf(s, d)]] + Pieces(s[IndexOf(s, d) + 1..], d)
  {
  }

  /** The first `d` of `a + [d] + b`, when `a` has none, is the one after `a`. */
  lemma IndexOfAfter(a: string, d: char, b: string)
    requires d !in a
    ensures IndexOf(a + [d] + b, d) == |a|
  {
    var s := a + [d] + b;
    var k := IndexOf(s, d);
    assert s[|a|] == d;
  }

  /** Splitting joined pieces that hold no delimiter gives the pieces back. */
  lemma {:induction false} PiecesJoin(ps: seq<string>, d: char)
    requires |ps| >= 1
    requires forall i :: 0 <= i < |ps| ==> d !in ps[i]
    ensures Pieces(Join(ps, d), d) == ps
    decreases |ps|
  {
    var s := Join(ps, d);
    if |ps| == 1 {
      IndexOfAbsent(s, d);
    } else {
      var rest := Join(ps[1..], d);
      IndexOfAfter(ps[0], d, rest);
      assert s[..|ps[0]|] == ps[0];
      assert s[|ps[0]| + 1..] == rest;
      PiecesJoin(ps[1..], d);
      PiecesAtFirst(s, d);
      assert ps == [ps[0]] + ps[1..];
    }
  }

  /** The text up to some point past a delimiter at `k`: what precedes it, the delimiter, and the start of the rest. */
  lemma SliceAcross(s: string, k: nat, j: nat)
    requires k < |s| && j <= |s| - k - 1
    ensures s[..k + 1 + j] == s[..k] + [s[k]] + s[k + 1..][..j]
  {
  }

  /** The first two pieces, with the delimiter between them, start the text. */
  lemma TwoPiecesPrefix(s: string, d: char)
    requires |Pieces(s, d)| >= 2
    ensures StartsWith(s, Pieces(s, d)[0] + [d] + Pieces(s, d)[1])
  {
    var k := IndexOf(s, d);
    assert k < |s| && s[k] == d;
    var rest := s[k + 1..];
    var j := IndexOf(rest, d);
    assert Pieces(s, d)[0] == s[..k] && Pieces(s, d)[1] == rest[..j] by {
      PiecesAtFirst(s, d);
      FirstPiece(rest, d);
    }
    SliceAcross(s, k, j);
  }

  /** Java's limit-0 rule: trailing empty strings are removed from the result. */
  function DropTrailingEmpty(ps: seq<string>): (r: seq<string>)
    ensures |r| <= |ps| && r == ps[..|r|]
    ensures forall i :: |r| <= i < |ps| ==> ps[i] == ""
    ensures |r| > 0 ==> r[|r| - 1] != ""
  {
    if |ps| > 0 && ps[|ps| - 1] == "" then DropTrailingEmpty(ps[..|ps| - 1]) else ps
  }

  /**
   * `s.split(d)` for a delimiter that is not a regular-expression metacharacter
   * (`;`, `&` and `=` in the handlers). Without any match Java returns `{s}`
   * itself, even when `s` is empty; otherwise the pieces, minus trailing empty ones.
   */
  function Split(s: string, d: char): (r: seq<string>)
    ensures d !in s ==> r == [s]
    ensures forall i :: 0 <= i < |r| ==> d !in r[i]
    ensures |r| <= |Pieces(s, d)| && r == Pieces(s, d)[..|r|]
    ensures d in s ==> forall i :: |r| <= i < |Pieces(s, d)| ==> Pieces(s, d)[i] == ""
    ensures d in s && |r| > 0 ==> r[|r| - 1] != ""
  {
    if d !in s then
      IndexOfAbsent(s, d);
      [s]
    else
      DropTrailingEmpty(Pieces(s, d))
  }

  /** The first piece runs up to the first delimiter. */
  lemma FirstPiece(s: string, d: char)
    ensures Pieces(s, d)[0] == s[..IndexOf(s, d)]
  {
  }

  ghost predicate AllEmpty(ps: seq<string>) {
    forall i :: 0 <= i < |ps| ==> ps[i] == ""
  }

  ghost predicate OnlyDelimiters(s: string, d: char) {
    forall j :: 0 <= j < |s| ==> s[j] == d
  }

  /** When every piece is empty, the text held nothing but delimiters. */
  lemma {:induction false} PiecesEmptyOnlyDelimiters(s: string, d: char)
    requires AllEmpty(Pieces(s, d))
    ensures OnlyDelimiters(s, d)
    decreases |s|
  {
    var k := IndexOf(s, d);
    if k == |s| {
      assert Pieces(s, d) == [s];
      assert s == "";
    } else {
      var rest := s[k + 1..];
      var ps := Pieces(s, d);
      assert ps == [s[..k]] + Pieces(rest, d);
      assert ps[0] == s[..k];
      assert k == 0;
      assert AllEmpty(Pieces(rest, d)) by {
        forall i | 0 <= i < |Pieces(rest, d)| ensures Pieces(rest, d)[i] == "" {
          assert Pieces(rest, d)[i] == ps[i + 1];
        }
      }
      PiecesEmptyOnlyDelimiters(rest, d);
      forall j | 0 <= j < |s| ensures s[j] == d {
        if j > 0 {
          assert s[j] == rest[j - 1];
        }
      }
    }
  }

  /** A text of delimiters alone splits into empty pieces only. */
  lemma {:induction false} OnlyDelimitersPiecesEmpty(s: string, d: char)
    requires OnlyDelimiters(s, d)
    ensures AllEmpty(Pieces(s, d))
    decreases |s|
  {
    var k := IndexOf(s, d);
    if k == |s| {
      assert |s| == 0;
    } else {
      var rest := s[k + 1..];
      var ps := Pieces(s, d);
      assert ps == [s[..k]] + Pieces(rest, d);
      assert s[0] == d;
      assert k == 0;
      assert OnlyDelimiters(rest, d) by {
        forall j | 0 <= j < |rest| ensures rest[j] == d {
          assert rest[j] == s[j + 1];
        }
      }
      OnlyDelimitersPiecesEmpty(rest, d);
      forall i | 0 <= i < |ps| ensures ps[i] == "" {
        if i > 0 {
          assert ps[i] == Pieces(rest, d)[i - 1];
        }
      }
    }
  }

  /** Java's `trim` removes characters at or below U+0020 from both ends. */
  predicate IsTrimmable(c: char) {
    c <= ' '
  }

  /** Leading trimmable characters removed. */
  function TrimStart(s: string): (r: string)
    ensures |r| <= |s| && r == s[|s| - |r|..]
    ensures forall i :: 0 <= i < |s| - |r| ==> IsTrimmable(s[i])
    ensures |r| > 0 ==> !IsTrimmable(r[0])
  {
    if |s| > 0 && IsTrimmable(s[0]) then TrimStart(s[1..]) else s
  }

  /** Trailing trimmable characters removed. */
  function TrimEnd(s: string): (r: string)
    ensures |r| <= |s| && r == s[..|r|]
    ensures forall i :: |r| <= i < |s| ==> IsTrimmable(s[i])
    ensures |r| > 0 ==> !IsTrimmable(r[|r| - 1])
  {
    if |s| > 0 && IsTrimmable(s[|s| - 1]) then TrimEnd(s[..|s| - 1]) else s
  }

  ghost predicate AllTrimmable(s: string) {
    forall i :: 0 <= i < |s| ==> IsTrimmable(s[i])
  }

  /** Text that `trim` leaves alone: empty, or without trimmable characters at its ends. */
  ghost predicate TrimmedEdges(s: string) {
    |s| == 0 || (!IsTrimmable(s[0]) && !IsTrimmable(s[|s| - 1]))
  }

  /** `s` is `t` with only trimmable characters before and after it. */
  ghost predicate PaddedBy(s: string, before: string, t: string, after: string) {
    AllTrimmable(before) && AllTrimmable(after) && s == before + t + after
  }

  lemma TrimStartRemoved(s: string)
    ensures AllTrimmable(s[..|s| - |TrimStart(s)|])
  {
    var k := |s| - |TrimStart(s)|;
    forall i | 0 <= i < k ensures IsTrimmable(s[..k][i]) {
      assert s[..k][i] == s[i];
    }
  }

  lemma TrimEndRemoved(u: string)
    ensures AllTrimmable(u[|TrimEnd(u)|..])
  {
    var after := u[|TrimEnd(u)|..];
    forall j | 0 <= j < |after| ensures IsTrimmable(after[j]) {
      assert after[j] == u[|TrimEnd(u)| + j];
    }
  }

  /** A suffix after a trimmable prefix, cut before a trimmable tail, is padded by both. */
  lemma PaddedByParts(s: string, u: string, r: string)
    requires |u| <= |s| && u == s[|s| - |u|..] && AllTrimmable(s[..|s| - |u|])
    requires |r| <= |u| && r == u[..|r|] && AllTrimmable(u[|r|..])
    ensures PaddedBy(s, s[..|s| - |u|], r, u[|r|..])
  {
    assert s == s[..|s| - |u|] + u;
    assert u == r + u[|r|..];
  }

  /** Trimming the end of a text whose start is already trimmed leaves both ends untrimmable. */
  lemma TrimEndEdges(u: string)
    requires |u| == 0 || !IsTrimmable(u[0])
    ensures TrimmedEdges(TrimEnd(u))
  {
    var r := TrimEnd(u);
    if |r| > 0 {
      assert r[0] == u[0];
    }
  }

  /**
   * What `trim` keeps, `TrimEnd(TrimStart(s))`, is the text with a trimmable
   * run before it (the one `TrimStart` drops) and a trimmable run after it, and
   * has no trimmable character at either end.
   */
  lemma TrimFrame(s: string)
    ensures PaddedBy(s, s[..|s| - |TrimStart(s)|], TrimEnd(TrimStart(s)), TrimStart(s)[|TrimEnd(TrimStart(s))|..])
    ensures TrimmedEdges(TrimEnd(TrimStart(s)))
  {
    var u := TrimStart(s);
    var r := TrimEnd(u);
    TrimStartRemoved(s);
    TrimEndRemoved(u);
    PaddedByParts(s, u, r);
    TrimEndEdges(u);
  }

  /**
   * `String.trim`: the stretch of the text between its leading and its
   * trailing run of characters at or below U+0020.
   */
  function Trim(s: string): (r: string)
    ensures |r| <= |s|
    ensures TrimmedEdges(r)
  {
    TrimFrame(s);
    TrimEnd(TrimStart(s))
  }

  lemma {:induction false} TrimStartPadded(pad: string, s: string)
    requires AllTrimmable(pad)
    requires |s| == 0 || !IsTrimmable(s[0])
    ensures TrimStart(pad + s) == s
    decreases |pad|
  {
    if |pad| > 0 {
      assert (pad + s)[1..] == pad[1..] + s;
      TrimStartPadded(pad[1..], s);
    } else {
      assert pad + s == s;
    }
  }

  lemma {:induction false} TrimEndPadded(s: string, pad: string)
    requires AllTrimmable(pad)
    requires |s| == 0 || !IsTrimmable(s[|s| - 1])
    ensures TrimEnd(s + pad) == s
    decreases |pad|
  {
    if |pad| > 0 {
      assert (s + pad)[..|s + pad| - 1] == s + pad[..|pad| - 1];
      TrimEndPadded(s, pad[..|pad| - 1]);
    } else {
      assert s + pad == s;
    }
  }

  /** Surrounding a text with trimmable padding does not change what `trim` returns. */
  lemma TrimPadded(before: string, s: string, after: string)
    requires AllTrimmable(before) && AllTrimmable(after)
    requires |s| > 0 && TrimmedEdges(s)
    ensures Trim(before + s + after) == s
  {
    assert before + s + after == before + (s + after);
    TrimStartPadded(before, s + after);
    TrimEndPadded(s, after);
  }

  /** `trim` is idempotent and its result has no trimmable ends. */
  lemma TrimIdempotent(s: string)
    ensures TrimmedEdges(Trim(s))
    ensures Trim(Trim(s)) == Trim(s)
  {
    var t := Trim(s);
    var u := TrimStart(s);
    if |t| > 0 {
      assert t == u[..|t|];
      assert t[0] == u[0];
      TrimPadded("", t, "");
      assert "" + t + "" == t;
    }
  }

  /**
   * `Character.isWhitespace`: the Unicode space separators other than the
   * no-break ones, and the ASCII controls listed in its javadoc. Of the
   * characters `trim` removes, it leaves out the controls below TAB and those
   * between CR and FS; every ASCII whitespace character is one `trim` removes.
   */
  predicate IsWhitespace(c: char)
    ensures IsWhitespace(c) ==> c != '\U{00A0}' && c != '\U{2007}' && c != '\U{202F}'
    ensures IsWhitespace(c) && c < '\U{0080}' ==> IsTrimmable(c)
    ensures IsTrimmable(c) && !IsWhitespace(c) <==> c < '\t' || ('\r' < c < '\U{1C}')
  {
    || c == ' '
    || ('\t' <= c <= '\r')
    || ('\U{1C}' <= c <= '\U{1F}')
    || c == '\U{1680}'
    || ('\U{2000}' <= c <= '\U{2006}')
    || ('\U{2008}' <= c <= '\U{200A}')
    || c == '\U{2028}'
    || c == '\U{2029}'
    || c == '\U{205F}'
    || c == '\U{3000}'
  }

  /** All characters below U+0080. */
  ghost predicate IsAscii(s: string) {
    forall i :: 0 <= i < |s| ==> s[i] < '\U{0080}'
  }

  /**
   * `String.isBlank`: empty or whitespace only. The empty text is blank; a
   * blank text starts and ends with whitespace.
   */
  predicate IsBlank(s: string)
    ensures |s| == 0 ==> IsBlank(s)
    ensures IsBlank(s) && |s| > 0 ==> IsWhitespace(s[0]) && IsWhitespace(s[|s| - 1])
  {
    forall i :: 0 <= i < |s| ==> IsWhitespace(s[i])
  }

  /** A blank ASCII text is one `trim` removes entirely. */
  lemma BlankAsciiTrimsAway(s: string)
    requires IsBlank(s) && IsAscii(s)
    ensures Trim(s) == ""
  {
    TrimFrame(s);
  }

  /** `isBlank` is not `trim`: a lone U+2000 is blank, yet `trim` keeps it. */
  lemma BlankNotTrimmed()
    ensures IsBlank("\U{2000}") && Trim("\U{2000}") == "\U{2000}"
  {
    var w := "\U{2000}";
    TrimPadded("", w, "");
    assert "" + w + "" == w;
  }

  /** `String.startsWith`. */
  predicate StartsWith(s: string, prefix: string) {
    |prefix| <= |s| && s[..|prefix|] == prefix
  }

  /** A text that starts with `prefix` is `prefix` followed by the rest. */
  lemma StartsWithRest(s: string, prefix: string)
    requires StartsWith(s, prefix)
    ensures s == prefix + s[|prefix|..]
  {
    assert s == s[..|prefix|] + s[|prefix|..];
  }

  /**
   * `Character.toLowerCase` on the characters whose lower case is an ASCII
   * letter: `A`..`Z`, and the Kelvin sign, whose lower case is `k`. Every other
   * character is left as it is, which is enough to decide whether a lowered name
   * equals an all-ASCII lower-case word.
   */
  function LowerChar(c: char): (r: char)
    ensures 'A' <= c <= 'Z' ==> 'a' <= r <= 'z'
  {
    if 'A' <= c <= 'Z' then (c as int + 32) as char
    else if c == '\U{212A}' then 'k'
    else c
  }

  /** `String.toLowerCase`, character by character. */
  function LowerCase(s: string): (r: string)
    ensures |r| == |s|
    ensures forall i :: 0 <= i < |s| ==> r[i] == LowerChar(s[i])
  {
    if |s| == 0 then "" else [LowerChar(s[0])] + LowerCase(s[1..])
  }
}
