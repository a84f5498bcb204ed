/**
 * java.util.StringTokenizer with the delimiter set "," (delimiters not returned),
 * as `CSVLoader.parse` uses it. A token is a maximal run of non-comma characters,
 * so runs of commas, and commas at either end, produce no empty tokens.
 */
module StringTokenizer {

  predicate IsDelimiter(c: char) {
    c == ','
  }

  /** What a token always is: non-empty and free of the delimiter. */
  predicate IsToken(t: string) {
    |t| > 0 && ',' !in t
  }

  /** StringTokenizer.skipDelimiters: the first non-delimiter position at or after `p`. */
  function SkipDelimiters(s: string, p: nat): (q: nat)
    requires p <= |s|
    ensures p <= q <= |s|
    ensures forall i :: p <= i < q ==> IsDelimiter(s[i])
    ensures q < |s| ==> !IsDelimiter(s[q])
    decreases |s| - p
  {
    if p < |s| && IsDelimiter(s[p]) then SkipDelimiters(s, p + 1) else p
  }

  /** StringTokenizer.scanToken: the end of the token that starts at `p`. */
  function ScanToken(s: string, p: nat): (q: nat)
    requires p <= |s|
    ensures p <= q <= |s|
    ensures forall i :: p <= i < q ==> !IsDelimiter(s[i])
    ensures q < |s| ==> IsDelimiter(s[q])
    decreases |s| - p
  {
    if p < |s| && !IsDelimiter(s[p]) then ScanToken(s, p + 1) else p
  }

  /** The tokens of `s`, in order: the reference definition, read off the front of `s`. */
  function Tokens(s: string): (ts: seq<string>)
    ensures |ts| <= |s|
    decreases |s|
  {
    if s == [] then []
    else if IsDelimiter(s[0]) then Tokens(s[1..])
    else
      var n := ScanToken(s, 0);
      [s[..n]] + Tokens(s[n..])
  }

  /** A comma-separated line assembled from its fields. */
  function Join(ts: seq<string>): string {
    if |ts| == 0 then ""
    else if |ts| == 1 then ts[0]
    else ts[0] + "," + Join(ts[1..])
  }

  /** Scanning inside a suffix is scanning the whole string, shifted. */
  lemma {:induction false} ScanTokenShift(s: string, p: nat, q: nat)
    requires p <= q <= |s|
    ensures ScanToken(s, q) - p == ScanToken(s[p..], q - p)
    decreases |s| - q
  {
    if q < |s| && !IsDelimiter(s[q]) {
      assert s[p..][q - p] == s[q];
      ScanTokenShift(s, p, q + 1);
    }
  }

  /** Skipping delimiters does not change the tokens still to come. */
  lemma {:induction false} SkipDelimitersTokens(s: string, p: nat)
    requires p <= |s|
    ensures Tokens(s[p..]) == Tokens(s[SkipDelimiters(s, p)..])
    decreases |s| - p
  {
    if p < |s| && IsDelimiter(s[p]) {
      assert s[p..][1..] == s[p + 1..];
      SkipDelimitersTokens(s, p + 1);
    }
  }

  /** One `nextToken()` call: the token at `start` is the first of the remaining tokens. */
  lemma NextTokenStep(s: string, start: nat)
    requires start < |s| && !IsDelimiter(s[start])
    ensures Tokens(s[start..]) == [s[start..ScanToken(s, start)]] + Tokens(s[ScanToken(s, start)..])
  {
    var t := s[start..];
    var n := ScanToken(t, 0);
    ScanTokenShift(s, start, start);
    assert t[..n] == s[start..ScanToken(s, start)];
    assert t[n..] == s[ScanToken(s, start)..];
  }

  /** Every token is non-empty and comma-free. */
  lemma {:induction false} TokensAreTokens(s: string)
    ensures forall i :: 0 <= i < |Tokens(s)| ==> IsToken(Tokens(s)[i])
    decreases |s|
  {
    if s == [] {
    } else if IsDelimiter(s[0]) {
      TokensAreTokens(s[1..]);
    } else {
      var n := ScanToken(s, 0);
      TokensAreTokens(s[n..]);
      assert forall j :: 0 <= j < |s[..n]| ==> !IsDelimiter(s[..n][j]);
      assert IsToken(s[..n]);
    }
  }

  /** The token that starts a string reaches exactly up to the first comma. */
  lemma ScanTokenOfField(w: string, rest: string)
    requires IsToken(w)
    requires rest == [] || IsDelimiter(rest[0])
    ensures ScanToken(w + rest, 0) == |w|
  {
    var s := w + rest;
    assert forall i :: 0 <= i < |w| ==> s[i] == w[i] && w[i] in w;
    assert |w| < |s| ==> s[|w|] == rest[0];
  }

  /** Tokenising a line built from tokens gives those tokens back. */
  lemma {:induction false} TokensOfJoin(ts: seq<string>)
    requires forall i :: 0 <= i < |ts| ==> IsToken(ts[i])
    ensures Tokens(Join(ts)) == ts
  {
    if |ts| == 1 {
      var w := ts[0];
      ScanTokenOfField(w, []);
      assert w + [] == w;
      assert w[|w|..] == [];
    } else if |ts| > 1 {
      var w := ts[0];
      var r := Join(ts[1..]);
      var s := w + "," + r;
      assert s == w + ("," + r);
      ScanTokenOfField(w, "," + r);
      assert s[0] == w[0];
      assert s[..|w|] == w;
      assert s[|w|..] == "," + r;
      assert ("," + r)[1..] == r;
      TokensOfJoin(ts[1..]);
    }
  }
}
