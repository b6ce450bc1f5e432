/**
 * `readSession`: which session, if any, a request's `Cookie` headers name.
 * Headers whose lower-cased name is `cookie` are kept, their values split on
 * `;`, each piece trimmed; pieces starting with `id=` give the text after it,
 * except `deleted` and blank texts. The first such text is parsed as a UUID and
 * looked up. Every failure (no candidate, a malformed UUID, an unknown one) is
 * `None`; the store is only read.
 */
module Cookies {
  import opened Wrappers
  import opened JavaStrings
  import opened Http

  /** A `java.util.UUID`: two 64-bit halves. */
  datatype Uuid = Uuid(mostSigBits: bv64, leastSigBits: bv64)

  /**
   * The text syntax of UUIDs, which the model leaves abstract: `parse` is
   * `UUID.fromString` with a thrown exception as `None`, `render` is `toString`.
   */
  datatype IdCodec = IdCodec(parse: string -> Option<Uuid>, render: Uuid -> string)

  const IdPrefix: string := "id="
  const Deleted: string := "deleted"

  /** The characters `UUID.toString` writes: lower-case hexadecimal digits and dashes. */
  predicate IsUuidChar(c: char) {
    ('0' <= c <= '9') || ('a' <= c <= 'f') || c == '-'
  }

  /** What `UUID.toString` produces: 36 of those characters. */
  predicate IsUuidText(s: string) {
    |s| == 36 && forall i :: 0 <= i < |s| ==> IsUuidChar(s[i])
  }

  /** `toString` writes UUID text and `fromString` reads it back. */
  ghost predicate CodecSound(codec: IdCodec) {
    forall u :: IsUuidText(codec.render(u)) && codec.parse(codec.render(u)) == Some(u)
  }

  /** `name.toLowerCase().equals("cookie")`. */
  predicate IsCookieHeader(name: string) {
    LowerCase(name) == "cookie"
  }

  /** The name match ignores case: each character is one of the two cases of the letter of `cookie` (or the Kelvin sign for `k`). */
  lemma CookieHeaderCaseInsensitive(name: string)
    ensures IsCookieHeader(name) <==>
      && |name| == 6
      && name[0] in "cC" && name[1] in "oO" && name[2] in "oO"
      && name[3] in "kK\U{212A}" && name[4] in "iI" && name[5] in "eE"
  {
    if |name| == 6 {
      var lower := LowerCase(name);
      if IsCookieHeader(name) {
        assert lower[0] == 'c' && lower[1] == 'o' && lower[2] == 'o' && lower[3] == 'k' && lower[4] == 'i' && lower[5] == 'e';
      }
      if && name[0] in "cC" && name[1] in "oO" && name[2] in "oO"
         && name[3] in "kK\U{212A}" && name[4] in "iI" && name[5] in "eE" {
        assert lower == "cookie";
      }
    }
  }

  /** What one `;`-separated piece contributes: the text after `id=` once trimmed, unless it is `deleted` or blank. */
  function IdEntry(piece: string): (r: Option<string>)
    ensures r.Some? ==> Trim(piece) == IdPrefix + r.value && r.value != Deleted && !IsBlank(r.value)
    ensures r.None? && StartsWith(Trim(piece), IdPrefix) ==>
      var c := Trim(piece)[|IdPrefix|..]; c == Deleted || IsBlank(c)
  {
    var t := Trim(piece);
    if !StartsWith(t, IdPrefix) then None
    else
      var c := t[|IdPrefix|..];
      StartsWithRest(t, IdPrefix);
      if c == Deleted || IsBlank(c) then None else Some(c)
  }

  /** Candidate ids from the pieces of one cookie value, in order. */
  function PieceCandidates(pieces: seq<string>): (r: seq<string>)
    ensures |r| <= |pieces|
    ensures forall i :: 0 <= i < |r| ==> r[i] != Deleted && !IsBlank(r[i])
  {
    if |pieces| == 0 then []
    else
      (match IdEntry(pieces[0]) case Some(c) => [c] case None => []) + PieceCandidates(pieces[1..])
  }

  /** Candidate ids from the values of one header, each split on `;`. */
  function ValueCandidates(values: seq<string>): (r: seq<string>)
    ensures forall i :: 0 <= i < |r| ==> r[i] != Deleted && !IsBlank(r[i])
  {
    if |values| == 0 then []
    else PieceCandidates(Split(values[0], ';')) + ValueCandidates(values[1..])
  }

  /** Candidate ids from every cookie header, in header order. */
  function Candidates(headers: seq<Header>): (r: seq<string>)
    ensures forall i :: 0 <= i < |r| ==> r[i] != Deleted && !IsBlank(r[i])
    ensures (forall i :: 0 <= i < |headers| ==> !IsCookieHeader(headers[i].name)) ==> r == []
  {
    if |headers| == 0 then []
    else
      (if IsCookieHeader(headers[0].name) then ValueCandidates(headers[0].values) else [])
      + Candidates(headers[1..])
  }

  /**
   * `readSession` over a store mapping ids to sessions: the first candidate,
   * parsed and looked up; `None` on any failure.
   */
  function ReadSession<S>(headers: seq<Header>, store: map<Uuid, S>, parse: string -> Option<Uuid>): (r: Option<S>)
    ensures |Candidates(headers)| == 0 ==> r.None?
    ensures r.Some? <==>
      var cs := Candidates(headers);
      |cs| > 0 && parse(cs[0]).Some? && parse(cs[0]).value in store
    ensures r.Some? ==> r.value == store[parse(Candidates(headers)[0]).value]
  {
    var cs := Candidates(headers);
    if |cs| == 0 then None
    else
      match parse(cs[0])
      case None => None
      case Some(u) => if u in store then Some(store[u]) else None
  }

  /** None of the pieces is a usable `id=` entry. */
  ghost predicate NoEntry(pieces: seq<string>) {
    forall p :: p in pieces ==> IdEntry(p).None?
  }

  /** No `;`-piece of any of the values is a usable `id=` entry. */
  ghost predicate NoEntryInValues(values: seq<string>) {
    forall v :: v in values ==> NoEntry(Split(v, ';'))
  }

  /** No header named `cookie` (in any case) carries a usable `id=` entry. */
  ghost predicate NoEntryInHeaders(headers: seq<Header>) {
    forall h :: h in headers && IsCookieHeader(h.name) ==> NoEntryInValues(h.values)
  }

  lemma NoEntryCons(pieces: seq<string>)
    requires |pieces| > 0
    ensures NoEntry(pieces) <==> IdEntry(pieces[0]).None? && NoEntry(pieces[1..])
  {
    assert pieces == [pieces[0]] + pieces[1..];
  }

  lemma NoEntryInValuesCons(values: seq<string>)
    requires |values| > 0
    ensures NoEntryInValues(values) <==> NoEntry(Split(values[0], ';')) && NoEntryInValues(values[1..])
  {
    assert values == [values[0]] + values[1..];
  }

  lemma NoEntryInHeadersCons(headers: seq<Header>)
    requires |headers| > 0
    ensures NoEntryInHeaders(headers) <==>
      (IsCookieHeader(headers[0].name) ==> NoEntryInValues(headers[0].values)) && NoEntryInHeaders(headers[1..])
  {
    assert headers == [headers[0]] + headers[1..];
  }

  lemma {:induction false} PieceCandidatesEmpty(pieces: seq<string>)
    ensures PieceCandidates(pieces) == [] <==> NoEntry(pieces)
    decreases |pieces|
  {
    if |pieces| > 0 {
      PieceCandidatesEmpty(pieces[1..]);
      NoEntryCons(pieces);
    }
  }

  lemma {:induction false} ValueCandidatesEmpty(values: seq<string>)
    ensures ValueCandidates(values) == [] <==> NoEntryInValues(values)
    decreases |values|
  {
    if |values| > 0 {
      ValueCandidatesEmpty(values[1..]);
      PieceCandidatesEmpty(Split(values[0], ';'));
      NoEntryInValuesCons(values);
    }
  }

  /**
   * `readSession` has no candidate exactly when no header named `cookie` (in
   * any case) carries a `;`-piece that trims to `id=` followed by a text that
   * is neither `deleted` nor blank; it then names no session.
   */
  lemma {:induction false} CandidatesEmpty(headers: seq<Header>)
    ensures Candidates(headers) == [] <==> NoEntryInHeaders(headers)
    decreases |headers|
  {
    if |headers| > 0 {
      CandidatesEmpty(headers[1..]);
      ValueCandidatesEmpty(headers[0].values);
      NoEntryInHeadersCons(headers);
    }
  }

  /** A request none of whose cookie headers carries a usable `id=` entry names no session. */
  lemma NoEntryNoSession<S>(headers: seq<Header>, store: map<Uuid, S>, parse: string -> Option<Uuid>)
    requires NoEntryInHeaders(headers)
    ensures ReadSession(headers, store, parse) == None
  {
    CandidatesEmpty(headers);
  }

  lemma {:induction false} CandidatesAppend(a: seq<Header>, b: seq<Header>)
    ensures Candidates(a + b) == Candidates(a) + Candidates(b)
    decreases |a|
  {
    if |a| == 0 {
      assert a + b == b;
    } else {
      assert (a + b)[0] == a[0];
      assert (a + b)[1..] == a[1..] + b;
      CandidatesAppend(a[1..], b);
    }
  }

  /**
   * A piece `id=<text>`, padded with characters `trim` removes, yields the
   * text, provided the text itself has no such characters at its ends and is
   * neither `deleted` nor blank.
   */
  lemma IdEntryPadded(before: string, text: string, after: string)
    requires AllTrimmable(before) && AllTrimmable(after)
    requires TrimmedEdges(text) && text != Deleted && !IsBlank(text)
    ensures IdEntry(before + IdPrefix + text + after) == Some(text)
  {
    var core := IdPrefix + text;
    assert core[0] == 'i';
    assert |text| > 0 ==> core[|core| - 1] == text[|text| - 1];
    assert |text| > 0;
    assert before + IdPrefix + text + after == before + core + after;
    TrimPadded(before, core, after);
    assert core[..|IdPrefix|] == IdPrefix;
    assert core[|IdPrefix|..] == text;
  }

  /** The cleared cookie `id=deleted`, however padded, names no session. */
  lemma DeletedEntrySkipped(before: string, after: string)
    requires AllTrimmable(before) && AllTrimmable(after)
    ensures IdEntry(before + IdPrefix + Deleted + after) == None
  {
    var core := IdPrefix + Deleted;
    assert before + IdPrefix + Deleted + after == before + core + after;
    assert core[0] == 'i' && core[|core| - 1] == 'd';
    TrimPadded(before, core, after);
    assert core[|IdPrefix|..] == Deleted;
  }

  /** An empty `id=`, however padded, names no session. */
  lemma EmptyEntrySkipped(before: string, after: string)
    requires AllTrimmable(before) && AllTrimmable(after)
    ensures IdEntry(before + IdPrefix + after) == None
  {
    assert before + IdPrefix + after == before + IdPrefix + after;
    assert IdPrefix[0] == 'i' && IdPrefix[|IdPrefix| - 1] == '=';
    TrimPadded(before, IdPrefix, after);
    assert Trim(before + IdPrefix + after)[|IdPrefix|..] == "";
  }

  /** UUID text has none of the characters `split(";")`, `trim` or `isBlank` act on, and is not `deleted`. */
  lemma UuidTextIsCandidate(t: string)
    requires IsUuidText(t)
    ensures ';' !in t
    ensures TrimmedEdges(t) && t != Deleted && !IsBlank(t)
  {
    assert forall i :: 0 <= i < |t| ==> t[i] != ';' && !IsTrimmable(t[i]) && !IsWhitespace(t[i]);
    assert !IsWhitespace(t[0]);
    assert |t| != |Deleted|;
  }

  /** A cookie value `id=<uuid text>` contributes exactly that text. */
  lemma UuidCookieValue(t: string, otherValues: seq<string>)
    requires IsUuidText(t)
    ensures ValueCandidates([IdPrefix + t] + otherValues) == [t] + ValueCandidates(otherValues)
  {
    var v := IdPrefix + t;
    UuidTextIsCandidate(t);
    assert ';' !in v by {
      forall i | 0 <= i < |v| ensures v[i] != ';' {
        if i >= |IdPrefix| {
          assert v[i] == t[i - |IdPrefix|];
        }
      }
    }
    assert Split(v, ';') == [v];
    IdEntryPadded("", t, "");
    assert "" + IdPrefix + t + "" == v;
    assert PieceCandidates([v]) == [t];
    assert ([v] + otherValues)[1..] == otherValues;
  }

  lemma CandidatesCons(h: Header, rest: seq<Header>)
    ensures Candidates([h] + rest)
         == (if IsCookieHeader(h.name) then ValueCandidates(h.values) else []) + Candidates(rest)
  {
    assert ([h] + rest)[0] == h && ([h] + rest)[1..] == rest;
  }

  /** Headers that are not cookie headers contribute no candidate. */
  lemma CandidatesSkipNonCookies(before: seq<Header>, rest: seq<Header>)
    requires forall i :: 0 <= i < |before| ==> !IsCookieHeader(before[i].name)
    ensures Candidates(before + rest) == Candidates(rest)
  {
    CandidatesAppend(before, rest);
    assert Candidates(before) == [];
  }

  /** The first candidate decides: its UUID's session, if it parses and is stored. */
  lemma ReadSessionFirstCandidate<S>(headers: seq<Header>, store: map<Uuid, S>, codec: IdCodec, u: Uuid)
    requires |Candidates(headers)| > 0 && codec.parse(Candidates(headers)[0]) == Some(u)
    ensures ReadSession(headers, store, codec.parse) == if u in store then Some(store[u]) else None
  {
  }

  /**
   * The cookie the login handler sets, `id=<uuid>`, sent back as the first
   * value of a cookie header after headers that are not cookies, names the
   * session stored under that UUID, whatever follows it.
   */
  lemma SetCookieResolves<S>(
    codec: IdCodec, u: Uuid, store: map<Uuid, S>,
    before: seq<Header>, name: string, otherValues: seq<string>, after: seq<Header>)
    requires CodecSound(codec)
    requires IsCookieHeader(name)
    requires forall i :: 0 <= i < |before| ==> !IsCookieHeader(before[i].name)
    ensures ReadSession(before + [Header(name, [IdPrefix + codec.render(u)] + otherValues)] + after, store, codec.parse)
         == if u in store then Some(store[u]) else None
  {
    var t := codec.render(u);
    var h := Header(name, [IdPrefix + t] + otherValues);
    var headers := before + [h] + after;
    assert Candidates(headers)[0] == t by {
      assert headers == before + ([h] + after);
      CandidatesSkipNonCookies(before, [h] + after);
      CandidatesCons(h, after);
      UuidCookieValue(t, otherValues);
    }
    ReadSessionFirstCandidate(headers, store, codec, u);
  }

  /** The simplest case: one cookie header carrying just the login's cookie. */
  lemma SingleCookieResolves<S>(codec: IdCodec, u: Uuid, store: map<Uuid, S>, name: string)
    requires CodecSound(codec)
    requires IsCookieHeader(name)
    ensures ReadSession([Header(name, [IdPrefix + codec.render(u)])], store, codec.parse)
         == if u in store then Some(store[u]) else None
  {
    var v := IdPrefix + codec.render(u);
    assert [v] + [] == [v];
    assert [] + [Header(name, [v])] + [] == [Header(name, [v])];
    SetCookieResolves(codec, u, store, [], name, [], []);
  }

  /** Pieces without a usable `id=` entry contribute nothing, wherever they stand before the rest. */
  lemma {:induction false} PieceCandidatesSkip(others: seq<string>, rest: seq<string>)
    requires NoEntry(others)
    ensures PieceCandidates(others + rest) == PieceCandidates(rest)
    decreases |others|
  {
    var all := others + rest;
    if |others| == 0 {
      assert all == rest;
    } else {
      assert IdEntry(others[0]).None? && NoEntry(others[1..]) by { NoEntryCons(others); }
      assert all[0] == others[0] && all[1..] == others[1..] + rest;
      PieceCandidatesDrop(all);
      PieceCandidatesSkip(others[1..], rest);
    }
  }

  lemma PieceCandidatesDrop(pieces: seq<string>)
    requires |pieces| > 0 && IdEntry(pieces[0]).None?
    ensures PieceCandidates(pieces) == PieceCandidates(pieces[1..])
  {
    assert [] + PieceCandidates(pieces[1..]) == PieceCandidates(pieces[1..]);
  }

  /**
   * The cookie value a browser sends when it holds other cookies too: the
   * other `;`-pieces, then the login's `id=<uuid>` (after the usual space).
   */
  function CookieList(others: seq<string>, pad: string, t: string): string {
    Join(others + [pad + IdPrefix + t], ';')
  }

  /** In such a value only the `id=<uuid>` piece is a candidate. */
  lemma CookieListCandidates(others: seq<string>, pad: string, t: string)
    requires IsUuidText(t)
    requires NoEntry(others)
    requires forall i :: 0 <= i < |others| ==> ';' !in others[i]
    requires AllTrimmable(pad)
    ensures PieceCandidates(Split(CookieList(others, pad, t), ';')) == [t]
  {
    var last := pad + IdPrefix + t;
    var ps := others + [last];
    UuidTextIsCandidate(t);
    assert ';' !in last by {
      forall i | 0 <= i < |last| ensures last[i] != ';' {
        if i < |pad| {
          assert last[i] == pad[i];
        } else if i >= |pad| + |IdPrefix| {
          assert last[i] == t[i - |pad| - |IdPrefix|];
        }
      }
    }
    assert forall i :: 0 <= i < |ps| ==> ';' !in ps[i] by {
      forall i | 0 <= i < |ps| ensures ';' !in ps[i] {
        if i < |others| {
          assert ps[i] == others[i];
        }
      }
    }
    PiecesJoin(ps, ';');
    assert Split(CookieList(others, pad, t), ';') == ps by {
      assert ps[|ps| - 1] == last && last != "";
    }
    PieceCandidatesSkip(others, [last]);
    IdEntryPadded(pad, t, "");
    assert pad + IdPrefix + t + "" == last;
  }

  /**
   * The login's cookie resolves to its session also when the browser sends it
   * after other cookies in the same header (`a=1; b=2; id=<uuid>`), provided
   * none of them is itself a usable `id=` entry.
   */
  lemma CookieAfterOthersResolves<S>(codec: IdCodec, u: Uuid, store: map<Uuid, S>, name: string, others: seq<string>, pad: string)
    requires CodecSound(codec) && IsCookieHeader(name)
    requires NoEntry(others)
    requires forall i :: 0 <= i < |others| ==> ';' !in others[i]
    requires AllTrimmable(pad)
    ensures ReadSession([Header(name, [CookieList(others, pad, codec.render(u))])], store, codec.parse)
         == if u in store then Some(store[u]) else None
  {
    var t := codec.render(u);
    var v := CookieList(others, pad, t);
    var headers := [Header(name, [v])];
    assert Candidates(headers) == [t] by {
      CookieListCandidates(others, pad, t);
      assert ValueCandidates([v]) == [t];
    }
    ReadSessionFirstCandidate(headers, store, codec, u);
  }

  /** Once the cookie is cleared to `id=deleted`, a request carrying only it names no session, whatever the store holds. */
  lemma ClearedCookieResolvesNothing<S>(store: map<Uuid, S>, parse: string -> Option<Uuid>, name: string)
    ensures ReadSession([Header(name, [IdPrefix + Deleted])], store, parse) == None
  {
    var v := IdPrefix + Deleted;
    assert ';' !in v by {
      assert forall i :: 0 <= i < |v| ==> v[i] != ';';
    }
    assert Split(v, ';') == [v];
    DeletedEntrySkipped("", "");
    assert "" + IdPrefix + Deleted + "" == v;
    assert PieceCandidates([v]) == [];
    assert ValueCandidates([v]) == [];
    assert Candidates([Header(name, [v])]) == [];
  }
}
