/**
 * `parseQueryParams`: a query string split on `&`, each segment split on `=`,
 * collected with `Collectors.toMap` into key `split("=")[0]` and value
 * `split("=")[1]`. Every way this can throw (a null query, an index out of
 * bounds, a repeated key) is a `Failure`.
 */
module QueryParams {
  import opened Wrappers
  import opened JavaStrings

  datatype QueryError =
    | NullQuery                  // `query.split` on a request without a query string
    | MissingValue(segment: string)  // `split("=")` left fewer than two strings
    | DuplicateKey(key: string)      // `toMap` met a key twice

  /**
   * Key and value of one segment, as `s.split("=")[0]` and `s.split("=")[1]`
   * compute them: neither holds `=`, and the segment starts with the key, an
   * `=` and the value.
   */
  function ParseSegment(segment: string): (r: Option<(string, string)>)
    ensures r.Some? ==> '=' !in r.value.0 && '=' !in r.value.1
    ensures r.Some? ==> StartsWith(segment, r.value.0 + "=" + r.value.1)
    ensures '=' !in segment ==> r.None?
  {
    var parts := Split(segment, '=');
    if |parts| < 2 then None
    else
      TwoPiecesPrefix(segment, '=');
      Some((parts[0], parts[1]))
  }

  /** A segment's key read directly: the text before the first `=`. */
  function KeyText(segment: string): string {
    segment[..IndexOf(segment, '=')]
  }

  /** A segment's value read directly: the text between the first and the second `=` (or the end). */
  function ValueText(segment: string): string {
    var k := IndexOf(segment, '=');
    if k == |segment| then ""
    else
      var rest := segment[k + 1..];
      rest[..IndexOf(rest, '=')]
  }

  /** A segment yields a value when something other than `=` follows its first `=`. */
  ghost predicate HasValue(segment: string) {
    var k := IndexOf(segment, '=');
    k < |segment| && !OnlyDelimiters(segment[k + 1..], '=')
  }

  /**
   * Java's split semantics agree with the direct reading: a segment parses
   * exactly when some non-`=` character follows its first `=` (so `a=` and `a`
   * fail, `a==` fails, `a==c` gives the empty value), and then key and value are
   * the texts before the first `=` and between the first and second `=`.
   */
  lemma ParseSegmentReference(segment: string)
    ensures ParseSegment(segment).Some? <==> HasValue(segment)
    ensures HasValue(segment) ==> ParseSegment(segment) == Some((KeyText(segment), ValueText(segment)))
  {
    var k := IndexOf(segment, '=');
    if k == |segment| {
      IndexOfAbsent(segment, '=');
      assert Split(segment, '=') == [segment];
    } else if |Split(segment, '=')| >= 2 {
      SegmentWithValue(segment);
    } else {
      SegmentWithoutValue(segment);
    }
  }

  /** Where the first strings of a prefix of `[head] + tail` come from. */
  lemma PrefixOfCons(head: string, tail: seq<string>, parts: seq<string>)
    requires 2 <= |parts| <= 1 + |tail|
    requires parts == ([head] + tail)[..|parts|]
    ensures parts[0] == head && parts[1] == tail[0]
    ensures parts[|parts| - 1] == tail[|parts| - 2]
  {
    assert parts[|parts| - 1] == ([head] + tail)[|parts| - 1];
  }

  lemma NotAllEmpty(ps: seq<string>, i: int)
    requires 0 <= i < |ps| && ps[i] != ""
    ensures !AllEmpty(ps)
  {
  }

  lemma SegmentWithValue(segment: string)
    requires IndexOf(segment, '=') < |segment|
    requires |Split(segment, '=')| >= 2
    ensures HasValue(segment)
    ensures ParseSegment(segment) == Some((KeyText(segment), ValueText(segment)))
  {
    var k := IndexOf(segment, '=');
    var rest := segment[k + 1..];
    PiecesAtFirst(segment, '=');
    PrefixOfCons(segment[..k], Pieces(rest, '='), Split(segment, '='));
    FirstPiece(rest, '=');
    SegmentValueNotAllDelimiters(segment);
  }

  /** The last string `split` keeps is not empty, so the text after the first `=` is not all `=`. */
  lemma SegmentValueNotAllDelimiters(segment: string)
    requires IndexOf(segment, '=') < |segment|
    requires |Split(segment, '=')| >= 2
    ensures HasValue(segment)
  {
    var k := IndexOf(segment, '=');
    var parts := Split(segment, '=');
    var rest := segment[k + 1..];
    var tail := Pieces(rest, '=');
    PiecesAtFirst(segment, '=');
    PrefixOfCons(segment[..k], tail, parts);
    assert '=' in segment by {
      assert segment[k] == '=';
    }
    assert parts[|parts| - 1] != "";
    NotAllEmpty(tail, |parts| - 2);
    if OnlyDelimiters(rest, '=') {
      OnlyDelimitersPiecesEmpty(rest, '=');
    }
  }

  lemma SegmentWithoutValue(segment: string)
    requires IndexOf(segment, '=') < |segment|
    requires |Split(segment, '=')| < 2
    ensures !HasValue(segment)
  {
    var k := IndexOf(segment, '=');
    var rest := segment[k + 1..];
    var raw := Pieces(segment, '=');
    PiecesAtFirst(segment, '=');
    assert AllEmpty(Pieces(rest, '=')) by {
      forall i | 0 <= i < |Pieces(rest, '=')| ensures Pieces(rest, '=')[i] == "" {
        assert Pieces(rest, '=')[i] == raw[i + 1];
      }
    }
    PiecesEmptyOnlyDelimiters(rest, '=');
  }

  /**
   * `toMap` over the segments, in order; `acc` holds the entries collected so
   * far. A successful collection adds one new entry per segment; a failure
   * names the segment without a value or the repeated key.
   */
  function Collect(segments: seq<string>, acc: map<string, string>): (r: Result<map<string, string>, QueryError>)
    ensures r.Success? ==> |r.value| == |acc| + |segments|
    ensures r.Failure? ==> r.error.MissingValue? || r.error.DuplicateKey?
    ensures r.Failure? && r.error.MissingValue? ==> r.error.segment in segments
  {
    if |segments| == 0 then Success(acc)
    else
      match ParseSegment(segments[0])
      case None => Failure(MissingValue(segments[0]))
      case Some((key, value)) =>
        if key in acc then Failure(DuplicateKey(key))
        else
          assert |acc[key := value]| == |acc| + 1;
          var r := Collect(segments[1..], acc[key := value]);
          assert r.Failure? && r.error.MissingValue? ==> r.error.segment in segments by {
            if r.Failure? && r.error.MissingValue? {
              var i :| 0 <= i < |segments[1..]| && segments[1..][i] == r.error.segment;
              assert segments[i + 1] == r.error.segment;
            }
          }
          r
  }

  /** `parseQueryParams(query)`, where `None` stands for a null query. */
  function ParseQueryParams(query: Option<string>): (r: Result<map<string, string>, QueryError>)
    ensures query.None? ==> r == Failure(NullQuery)
  {
    match query
    case None => Failure(NullQuery)
    case Some(q) => Collect(Split(q, '&'), map[])
  }

  /** `Map.getOrDefault`. */
  function GetOrDefault(params: map<string, string>, key: string, default: string): (r: string)
    ensures key in params ==> r == params[key]
    ensures key !in params ==> r == default
  {
    if key in params then params[key] else default
  }

  ghost predicate AllHaveValues(segments: seq<string>) {
    forall s :: s in segments ==> HasValue(s)
  }

  ghost predicate DistinctKeys(segments: seq<string>) {
    forall i, j :: 0 <= i < j < |segments| ==> KeyText(segments[i]) != KeyText(segments[j])
  }

  ghost function KeySet(segments: seq<string>): set<string> {
    set s | s in segments :: KeyText(s)
  }

  /** `m` sends the segment's key to the segment's value. */
  ghost predicate Binds(m: map<string, string>, segment: string) {
    KeyText(segment) in m && m[KeyText(segment)] == ValueText(segment)
  }

  ghost predicate KeysOutside(segments: seq<string>, acc: map<string, string>) {
    forall s :: s in segments ==> KeyText(s) !in acc
  }

  lemma DistinctKeysCons(segments: seq<string>)
    requires |segments| > 0
    ensures DistinctKeys(segments) <==>
      && DistinctKeys(segments[1..])
      && forall s :: s in segments[1..] ==> KeyText(s) != KeyText(segments[0])
  {
    var tail := segments[1..];
    if DistinctKeys(tail) && forall s :: s in tail ==> KeyText(s) != KeyText(segments[0]) {
      forall i, j | 0 <= i < j < |segments| ensures KeyText(segments[i]) != KeyText(segments[j]) {
        assert segments[j] == tail[j - 1];
        if i > 0 {
          assert segments[i] == tail[i - 1];
        }
      }
    }
    if DistinctKeys(segments) {
      forall s | s in tail ensures KeyText(s) != KeyText(segments[0]) {
        var i :| 0 <= i < |tail| && tail[i] == s;
        assert tail[i] == segments[i + 1];
      }
      forall i, j | 0 <= i < j < |tail| ensures KeyText(tail[i]) != KeyText(tail[j]) {
        assert tail[i] == segments[i + 1] && tail[j] == segments[j + 1];
      }
    }
  }

  /** One step of `Collect`, phrased with the direct reading of the first segment. */
  lemma CollectStep(segments: seq<string>, acc: map<string, string>)
    requires |segments| > 0
    ensures var s := segments[0];
      Collect(segments, acc) ==
        if !HasValue(s) then Failure(MissingValue(s))
        else if KeyText(s) in acc then Failure(DuplicateKey(KeyText(s)))
        else Collect(segments[1..], acc[KeyText(s) := ValueText(s)])
  {
    ParseSegmentReference(segments[0]);
  }

  lemma SegmentsCons(segments: seq<string>)
    requires |segments| > 0
    ensures forall s :: s in segments <==> s == segments[0] || s in segments[1..]
  {
    assert segments == [segments[0]] + segments[1..];
  }

  /** `Collect` succeeds exactly when every segment has a value and no key repeats or is already collected. */
  lemma {:induction false} CollectSucceeds(segments: seq<string>, acc: map<string, string>)
    ensures Collect(segments, acc).Success? <==> AllHaveValues(segments) && DistinctKeys(segments) && KeysOutside(segments, acc)
    decreases |segments|
  {
    if |segments| > 0 {
      var s := segments[0];
      var tail := segments[1..];
      CollectStep(segments, acc);
      SegmentsCons(segments);
      DistinctKeysCons(segments);
      if HasValue(s) && KeyText(s) !in acc {
        CollectSucceeds(tail, acc[KeyText(s) := ValueText(s)]);
      }
    }
  }

  /** A successful `Collect` continues from the first segment's entry. */
  lemma CollectSuccessStep(segments: seq<string>, acc: map<string, string>)
    requires |segments| > 0
    requires Collect(segments, acc).Success?
    ensures HasValue(segments[0]) && KeyText(segments[0]) !in acc
    ensures Collect(segments, acc) == Collect(segments[1..], acc[KeyText(segments[0]) := ValueText(segments[0])])
  {
    CollectStep(segments, acc);
  }

  lemma RegroupUnion(a: set<string>, k: string, b: set<string>)
    ensures (a + {k}) + b == a + ({k} + b)
  {
  }

  lemma KeySetCons(segments: seq<string>)
    requires |segments| > 0
    ensures KeySet(segments) == {KeyText(segments[0])} + KeySet(segments[1..])
  {
    SegmentsCons(segments);
  }

  /** The keys after the first segment's entry, given the keys the rest collects. */
  lemma KeysAfterEntry(segments: seq<string>, acc: map<string, string>, keys: set<string>)
    requires |segments| > 0
    requires keys == acc[KeyText(segments[0]) := ValueText(segments[0])].Keys + KeySet(segments[1..])
    ensures keys == acc.Keys + KeySet(segments)
  {
    var k := KeyText(segments[0]);
    assert acc[k := ValueText(segments[0])].Keys == acc.Keys + {k};
    KeySetCons(segments);
    RegroupUnion(acc.Keys, k, KeySet(segments[1..]));
  }

  /** When `Collect` succeeds, its keys are the collected ones plus every segment's key. */
  lemma {:induction false} CollectKeys(segments: seq<string>, acc: map<string, string>)
    requires Collect(segments, acc).Success?
    ensures Collect(segments, acc).value.Keys == acc.Keys + KeySet(segments)
    decreases |segments|
  {
    if |segments| > 0 {
      var s := segments[0];
      var next := acc[KeyText(s) := ValueText(s)];
      CollectSuccessStep(segments, acc);
      CollectKeys(segments[1..], next);
      KeysAfterEntry(segments, acc, Collect(segments[1..], next).value.Keys);
    }
  }

  /** When `Collect` succeeds, the entries collected before are kept as they were. */
  lemma {:induction false} CollectKeepsEntries(segments: seq<string>, acc: map<string, string>)
    requires Collect(segments, acc).Success?
    ensures forall key :: key in acc ==> key in Collect(segments, acc).value && Collect(segments, acc).value[key] == acc[key]
    decreases |segments|
  {
    if |segments| > 0 {
      var s := segments[0];
      CollectSuccessStep(segments, acc);
      CollectKeepsEntries(segments[1..], acc[KeyText(s) := ValueText(s)]);
    }
  }

  /** When `Collect` succeeds, the map sends every segment's key to that segment's value. */
  lemma {:induction false} CollectBinds(segments: seq<string>, acc: map<string, string>)
    requires Collect(segments, acc).Success?
    ensures forall s :: s in segments ==> Binds(Collect(segments, acc).value, s)
    decreases |segments|
  {
    if |segments| > 0 {
      var s := segments[0];
      var next := acc[KeyText(s) := ValueText(s)];
      CollectSuccessStep(segments, acc);
      CollectBinds(segments[1..], next);
      CollectKeepsEntries(segments[1..], next);
      SegmentsCons(segments);
    }
  }

  /** The whole query parses exactly when every `&`-segment has a value and no key repeats. */
  lemma ParseQuerySucceeds(q: string)
    ensures ParseQueryParams(Some(q)).Success? <==> AllHaveValues(Split(q, '&')) && DistinctKeys(Split(q, '&'))
  {
    CollectSucceeds(Split(q, '&'), map[]);
  }

  /**
   * A parsed query sends each `&`-segment's key to its value and holds nothing
   * else.
   */
  lemma ParseQueryContents(q: string)
    requires ParseQueryParams(Some(q)).Success?
    ensures ParseQueryParams(Some(q)).value.Keys == KeySet(Split(q, '&'))
    ensures forall s :: s in Split(q, '&') ==> Binds(ParseQueryParams(Some(q)).value, s)
  {
    CollectKeys(Split(q, '&'), map[]);
    CollectBinds(Split(q, '&'), map[]);
  }

  /** A single `key=value` pair, with a key and a non-empty value free of `=` and `&`, parses to that one entry. */
  lemma SinglePair(key: string, value: string)
    requires '=' !in key && '&' !in key
    requires '=' !in value && '&' !in value && |value| > 0
    ensures ParseQueryParams(Some(key + "=" + value)) == Success(map[key := value])
  {
    var q := key + "=" + value;
    assert '&' !in q by {
      forall i | 0 <= i < |q| ensures q[i] != '&' {
        if i < |key| {
          assert q[i] == key[i];
        } else if i > |key| {
          assert q[i] == value[i - |key| - 1];
        }
      }
    }
    assert Split(q, '&') == [q];
    IndexOfAbsent(key, '=');
    assert IndexOf(q, '=') == |key| by {
      assert q[|key|] == '=';
      assert forall i :: 0 <= i < |key| ==> q[i] == key[i];
    }
    var rest := q[|key| + 1..];
    assert rest == value;
    IndexOfAbsent(value, '=');
    assert !OnlyDelimiters(rest, '=') by {
      assert value[0] != '=';
    }
    assert HasValue(q);
    assert KeyText(q) == key;
    assert ValueText(q) == value;
    ParseSegmentReference(q);
    assert ParseSegment(q) == Some((key, value));
    assert Collect([q], map[]) == Collect([], map[key := value]);
  }
}
