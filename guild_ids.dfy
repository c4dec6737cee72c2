/**
 * The configured guild list: the `GUILD_IDS` string split on ',' and each
 * piece trimmed of surrounding white space, in the order written.
 * Splitting follows `String.prototype.split` with a one-character separator,
 * trimming follows `String.prototype.trim`.
 */
module GuildIds {

  /** The separator between guild ids in `GUILD_IDS`. */
  const Comma: char := ','

  /** ECMAScript WhiteSpace and LineTerminator code points, which `trim` removes. */
  predicate IsWhite(c: char)
  {
    || c == '\t' || c == '\n' || c == '\U{B}' || c == '\U{C}' || c == '\r' || c == ' '
    || c == '\U{A0}' || c == '\U{1680}' || ('\U{2000}' <= c <= '\U{200A}')
    || c == '\U{2028}' || c == '\U{2029}' || c == '\U{202F}' || c == '\U{205F}'
    || c == '\U{3000}' || c == '\U{FEFF}'
  }

  /** Number of occurrences of `c` in `s`. */
  function Occurrences(s: string, c: char): nat
  {
    if s == [] then 0 else (if s[0] == c then 1 else 0) + Occurrences(s[1..], c)
  }

  // ---------------------------------------------------------------- split

  /** `s.split(sep)`: the maximal separator-free pieces, empty ones included. */
  function Split(s: string, sep: char): (r: seq<string>)
    ensures |r| >= 1
  {
    if s == [] then [""]
    else
      var rest := Split(s[1..], sep);
      if s[0] == sep then [""] + rest
      else [[s[0]] + rest[0]] + rest[1..]
  }

  /** `pieces.join(sep)`: the inverse of `Split`. */
  function JoinWith(pieces: seq<string>, sep: char): string
  {
    if |pieces| == 0 then ""
    else if |pieces| == 1 then pieces[0]
    else pieces[0] + [sep] + JoinWith(pieces[1..], sep)
  }

  /** There is one more piece than there are separators; so `""` splits into `[""]`. */
  lemma {:induction false} SplitCount(s: string, sep: char)
    ensures |Split(s, sep)| == Occurrences(s, sep) + 1
  {
    if s != [] {
      SplitCount(s[1..], sep);
    }
  }

  /** No piece contains the separator. */
  lemma {:induction false} SplitPiecesSeparatorFree(s: string, sep: char)
    ensures forall k :: 0 <= k < |Split(s, sep)| ==> sep !in Split(s, sep)[k]
  {
    if s != [] {
      SplitPiecesSeparatorFree(s[1..], sep);
      var rest := Split(s[1..], sep);
      if s[0] != sep {
        assert sep !in rest[0];
      }
    }
  }

  lemma JoinWithCons(a: char, p: string, ps: seq<string>, sep: char)
    ensures JoinWith([[a] + p] + ps, sep) == [a] + JoinWith([p] + ps, sep)
  {
    var xs, ys := [[a] + p] + ps, [p] + ps;
    if |ps| > 0 {
      assert xs[1..] == ps == ys[1..];
    }
  }

  /** Joining the pieces with the separator gives back the original string. */
  lemma {:induction false} JoinSplit(s: string, sep: char)
    ensures JoinWith(Split(s, sep), sep) == s
  {
    if s != [] {
      JoinSplit(s[1..], sep);
      var rest := Split(s[1..], sep);
      if s[0] == sep {
        assert ([""] + rest)[1..] == rest;
        assert s == [sep] + s[1..];
      } else {
        assert rest == [rest[0]] + rest[1..];
        JoinWithCons(s[0], rest[0], rest[1..], sep);
        assert s == [s[0]] + s[1..];
      }
    }
  }

  lemma {:induction false} SplitSeparatorFree(p: string, sep: char)
    requires sep !in p
    ensures Split(p, sep) == [p]
  {
    if p != [] {
      SplitSeparatorFree(p[1..], sep);
      assert p == [p[0]] + p[1..];
    }
  }

  lemma {:induction false} SplitAfterPiece(p: string, t: string, sep: char)
    requires sep !in p
    ensures Split(p + [sep] + t, sep) == [p] + Split(t, sep)
  {
    var s := p + [sep] + t;
    if p == [] {
      assert s[1..] == t;
    } else {
      assert s[1..] == p[1..] + [sep] + t;
      SplitAfterPiece(p[1..], t, sep);
      assert p == [p[0]] + p[1..];
    }
  }

  /** Splitting a join of separator-free pieces gives back the pieces. */
  lemma {:induction false} SplitJoin(pieces: seq<string>, sep: char)
    requires |pieces| >= 1
    requires forall k :: 0 <= k < |pieces| ==> sep !in pieces[k]
    ensures Split(JoinWith(pieces, sep), sep) == pieces
  {
    if |pieces| == 1 {
      SplitSeparatorFree(pieces[0], sep);
    } else {
      SplitJoin(pieces[1..], sep);
      SplitAfterPiece(pieces[0], JoinWith(pieces[1..], sep), sep);
      assert pieces == [pieces[0]] + pieces[1..];
    }
  }

  // ----------------------------------------------------------------- trim

  /** Drops leading white space. */
  function TrimStart(s: string): (r: string)
    ensures |r| <= |s| && r == s[|s| - |r|..]
    ensures forall k :: 0 <= k < |s| - |r| ==> IsWhite(s[k])
    ensures r == [] || !IsWhite(r[0])
  {
    if s != [] && IsWhite(s[0]) then TrimStart(s[1..]) else s
  }

  /** Drops trailing white space. */
  function TrimEnd(s: string): (r: string)
    ensures |r| <= |s| && r == s[..|r|]
    ensures forall k :: |r| <= k < |s| ==> IsWhite(s[k])
    ensures r == [] || !IsWhite(r[|r| - 1])
  {
    if s != [] && IsWhite(s[|s| - 1]) then TrimEnd(s[..|s| - 1]) else s
  }

  /** `s.trim()`. */
  function Trim(s: string): string
  {
    TrimEnd(TrimStart(s))
  }

  /**
   * `s[i..j]` is the trimmed core of `s`: everything outside it is white
   * space and, when it is not empty, it neither starts nor ends with white space.
   */
  predicate IsTrimmingOf(s: string, i: nat, j: nat)
  {
    && i <= j <= |s|
    && (forall k :: 0 <= k < i ==> IsWhite(s[k]))
    && (forall k :: j <= k < |s| ==> IsWhite(s[k]))
    && (i < j ==> !IsWhite(s[i]) && !IsWhite(s[j - 1]))
  }

  /** `Trim` cuts out the trimmed core. */
  lemma TrimBounds(s: string) returns (i: nat, j: nat)
    ensures IsTrimmingOf(s, i, j) && Trim(s) == s[i..j]
  {
    var t := TrimStart(s);
    var u := TrimEnd(t);
    i := |s| - |t|;
    j := i + |u|;
    assert t == s[i..];
    assert u == s[i..j] by {
      assert u == t[..|u|];
    }
    assert forall k :: j <= k < |s| ==> IsWhite(s[k]) by {
      forall k | j <= k < |s| ensures IsWhite(s[k]) {
        assert s[k] == t[k - i];
      }
    }
    assert i < j ==> !IsWhite(s[i]) && !IsWhite(s[j - 1]) by {
      if i < j {
        assert s[i] == u[0] && s[j - 1] == u[|u| - 1];
      }
    }
  }

  /** The trimmed core is unique, so `Trim` is the only function with that contract. */
  lemma TrimUnique(s: string, i: nat, j: nat)
    requires IsTrimmingOf(s, i, j)
    ensures Trim(s) == s[i..j]
  {
    var i', j' := TrimBounds(s);
    if i < j && i' < j' {
      assert i == i' && j == j';
    }
  }

  /** Trimming twice is trimming once. */
  lemma TrimIdempotent(s: string)
    ensures Trim(Trim(s)) == Trim(s)
  {
    var i, j := TrimBounds(s);
    var t := s[i..j];
    assert IsTrimmingOf(t, 0, |t|);
    TrimUnique(t, 0, |t|);
  }

  /** A trimmed string: no white space at either end. */
  predicate IsTrimmed(id: string)
  {
    id == [] || (!IsWhite(id[0]) && !IsWhite(id[|id| - 1]))
  }

  /** A string without white space at either end is its own trim. */
  lemma TrimOfTrimmed(s: string)
    requires IsTrimmed(s)
    ensures Trim(s) == s
  {
    assert IsTrimmingOf(s, 0, |s|);
    TrimUnique(s, 0, |s|);
  }

  // ---------------------------------------------------------------- parse

  /** `raw.split(",").map(g => g.trim())`. */
  function Parse(raw: string): seq<string>
  {
    var pieces := Split(raw, Comma);
    seq(|pieces|, k requires 0 <= k < |pieces| => Trim(pieces[k]))
  }

  /**
   * There is one guild per comma plus one, whatever the ids look like, so an
   * empty `GUILD_IDS` gives the single guild `""`; every id is trimmed and
   * comma-free, and it is the trim of the piece at the same position.
   */
  lemma ParseShape(raw: string)
    ensures |Parse(raw)| == Occurrences(raw, Comma) + 1
    ensures forall k :: 0 <= k < |Parse(raw)| ==>
      && Parse(raw)[k] == Trim(Split(raw, Comma)[k])
      && IsTrimmed(Parse(raw)[k])
      && Comma !in Parse(raw)[k]
  {
    SplitCount(raw, Comma);
    SplitPiecesSeparatorFree(raw, Comma);
    var pieces := Split(raw, Comma);
    forall k | 0 <= k < |pieces|
      ensures IsTrimmed(Parse(raw)[k]) && Comma !in Parse(raw)[k]
    {
      var i, j := TrimBounds(pieces[k]);
    }
  }

  /** An empty `GUILD_IDS` is one empty guild id, not an empty list. */
  lemma ParseEmpty()
    ensures Parse("") == [""]
  {
    assert Split("", Comma) == [""];
    assert Trim("") == "";
  }

  lemma ParseOfPieces(raw: string, pieces: seq<string>, ids: seq<string>)
    requires Split(raw, Comma) == pieces && |ids| == |pieces|
    requires forall k :: 0 <= k < |pieces| ==> Trim(pieces[k]) == ids[k]
    ensures Parse(raw) == ids
  {
  }

  /**
   * Writing a non-empty list of trimmed, comma-free ids joined by commas
   * and parsing it gives the list back.
   */
  lemma ParseJoin(ids: seq<string>)
    requires |ids| >= 1
    requires forall k :: 0 <= k < |ids| ==> Comma !in ids[k] && IsTrimmed(ids[k])
    ensures Parse(JoinWith(ids, Comma)) == ids
  {
    var raw := JoinWith(ids, Comma);
    SplitJoin(ids, Comma);
    forall k | 0 <= k < |ids| ensures Trim(ids[k]) == ids[k] {
      TrimOfTrimmed(ids[k]);
    }
    ParseOfPieces(raw, ids, ids);
  }

  /** Every character of `s` is white space. */
  predicate AllWhite(s: string)
  {
    forall i :: 0 <= i < |s| ==> IsWhite(s[i])
  }

  /**
   * White space around an id is ignored: writing trimmed, comma-free ids
   * joined by commas, each padded before and after with any white space,
   * and parsing the result gives the ids back.
   */
  lemma ParsePadded(ids: seq<string>, pre: seq<string>, post: seq<string>)
    requires |ids| >= 1 && |pre| == |ids| && |post| == |ids|
    requires forall k :: 0 <= k < |ids| ==> Comma !in ids[k] && IsTrimmed(ids[k])
    requires forall k :: 0 <= k < |ids| ==> AllWhite(pre[k]) && AllWhite(post[k])
    ensures Parse(JoinWith(seq(|ids|, k requires 0 <= k < |ids| => pre[k] + ids[k] + post[k]), Comma)) == ids
  {
    var padded := seq(|ids|, k requires 0 <= k < |ids| => pre[k] + ids[k] + post[k]);
    forall k | 0 <= k < |ids| ensures Comma !in padded[k] && Trim(padded[k]) == ids[k] {
      PaddedId(pre[k], ids[k], post[k]);
    }
    SplitJoin(padded, Comma);
    ParseOfPieces(JoinWith(padded, Comma), padded, ids);
  }

  /** A trimmed, comma-free id padded with white space trims back to itself and has no comma. */
  lemma PaddedId(a: string, id: string, b: string)
    requires Comma !in id && IsTrimmed(id) && AllWhite(a) && AllWhite(b)
    ensures Comma !in a + id + b && Trim(a + id + b) == id
  {
    WhiteHasNoComma(a);
    WhiteHasNoComma(b);
    PaddedTrim(a, id, b);
  }

  lemma WhiteHasNoComma(w: string)
    requires AllWhite(w)
    ensures Comma !in w
  {
    assert !IsWhite(Comma);
  }

  lemma PaddedTrim(a: string, id: string, b: string)
    requires IsTrimmed(id) && AllWhite(a) && AllWhite(b)
    ensures Trim(a + id + b) == id
  {
    var p, i, j := a + id + b, |a|, |a| + |id|;
    assert p[i..j] == id;
    forall m | 0 <= m < i ensures IsWhite(p[m]) {
      assert p[m] == a[m];
    }
    forall m | j <= m < |p| ensures IsWhite(p[m]) {
      assert p[m] == b[m - j];
    }
    assert IsTrimmingOf(p, i, j);
    TrimUnique(p, i, j);
  }
}
