/** Java's `String.split("\n")`: the string is cut at every newline, and then, because the
    limit is zero, every trailing empty field is dropped; a string without any newline
    comes back whole, as a single field (so the empty string gives one empty field). */
module JavaSplit {

  const NEWLINE: char := '\n'

  /** Every newline-free piece between consecutive newlines, empty ones included. */
  function Pieces(s: string): (r: seq<string>)
    ensures |r| >= 1
    ensures forall k :: 0 <= k < |r| ==> NEWLINE !in r[k]
    decreases |s|
  {
    if s == [] then [[]]
    else
      var rest := Pieces(s[1..]);
      if s[0] == NEWLINE then [[]] + rest
      else [[s[0]] + rest[0]] + rest[1..]
  }

  /** The pieces put back together, one newline between neighbours. */
  function Join(r: seq<string>): string
    decreases |r|
  {
    if |r| == 0 then ""
    else if |r| == 1 then r[0]
    else r[0] + [NEWLINE] + Join(r[1..])
  }

  /** Drops the empty fields at the end of `r`. */
  function TrimTrailingEmpty(r: seq<string>): (t: seq<string>)
    ensures |t| <= |r| && t == r[..|t|]
    ensures forall k :: |t| <= k < |r| ==> r[k] == []
    ensures |t| == 0 || t[|t| - 1] != []
    decreases |r|
  {
    if |r| > 0 && r[|r| - 1] == [] then TrimTrailingEmpty(r[..|r| - 1]) else r
  }

  /** `s.split("\n")`. */
  function Split(s: string): (r: seq<string>)
    ensures forall k :: 0 <= k < |r| ==> NEWLINE !in r[k]
  {
    if NEWLINE !in s then [s] else TrimTrailingEmpty(Pieces(s))
  }

  lemma {:induction false} PiecesWithoutNewline(s: string)
    requires NEWLINE !in s
    ensures Pieces(s) == [s]
    decreases |s|
  {
    if s != [] {
      assert s[0] != NEWLINE;
      assert NEWLINE !in s[1..] by {
        forall k | 0 <= k < |s[1..]| ensures s[1..][k] != NEWLINE {
          assert s[1..][k] == s[k + 1];
        }
      }
      PiecesWithoutNewline(s[1..]);
      assert [s[0]] + s[1..] == s;
    }
  }

  /** Cutting at a newline between `a` and `b` cuts the pieces of `a` from those of `b`. */
  lemma {:induction false} PiecesConcat(a: string, b: string)
    ensures Pieces(a + [NEWLINE] + b) == Pieces(a) + Pieces(b)
    decreases |a|
  {
    var s := a + [NEWLINE] + b;
    if a == [] {
      assert s[1..] == b;
    } else {
      var c, t := a[0], a[1..];
      assert a == [c] + t;
      assert s == [c] + (t + [NEWLINE] + b);
      PiecesConcat(t, b);
      PiecesCons(c, t);
      PiecesCons(c, t + [NEWLINE] + b);
    }
  }

  /** One character in front of a string either opens a new piece or extends the first. */
  lemma PiecesCons(c: char, t: string)
    ensures Pieces([c] + t) ==
            if c == NEWLINE then [[]] + Pieces(t) else [[c] + Pieces(t)[0]] + Pieces(t)[1..]
  {
    assert ([c] + t)[1..] == t;
  }

  /** Joining the pieces gives back the string. */
  lemma {:induction false} JoinPieces(s: string)
    ensures Join(Pieces(s)) == s
    decreases |s|
  {
    if s != [] {
      var rest := Pieces(s[1..]);
      JoinPieces(s[1..]);
      if s[0] == NEWLINE {
        assert ([[]] + rest)[1..] == rest;
      } else if |rest| == 1 {
        assert [s[0]] + s[1..] == s;
      } else {
        var r := [[s[0]] + rest[0]] + rest[1..];
        assert r[1..] == rest[1..];
        assert Join(rest) == rest[0] + [NEWLINE] + Join(rest[1..]);
        assert [s[0]] + s[1..] == s;
      }
    }
  }

  /** Cutting a join of newline-free fields gives back the fields. */
  lemma {:induction false} PiecesJoin(r: seq<string>)
    requires |r| >= 1
    requires forall k :: 0 <= k < |r| ==> NEWLINE !in r[k]
    ensures Pieces(Join(r)) == r
    decreases |r|
  {
    PiecesWithoutNewline(r[0]);
    if |r| > 1 {
      PiecesJoin(r[1..]);
      PiecesConcat(r[0], Join(r[1..]));
      assert [r[0]] + r[1..] == r;
    }
  }

  lemma JoinHasNewline(r: seq<string>)
    requires |r| >= 2
    ensures NEWLINE in Join(r)
  {
    assert Join(r)[|r[0]|] == NEWLINE;
  }

  /** `split` undoes a join of at least two newline-free fields whose last field is not
      empty, and of any single newline-free field. */
  lemma SplitJoin(r: seq<string>)
    requires |r| >= 1
    requires forall k :: 0 <= k < |r| ==> NEWLINE !in r[k]
    requires |r| == 1 || r[|r| - 1] != []
    ensures Split(Join(r)) == r
  {
    if |r| > 1 {
      JoinHasNewline(r);
      PiecesJoin(r);
    }
  }

  /** Trimming a longer list keeps the trimmed shorter one as a prefix. */
  lemma {:induction false} TrimPrefix(a: seq<string>, b: seq<string>)
    ensures var ta := TrimTrailingEmpty(a); var tab := TrimTrailingEmpty(a + b);
            |ta| <= |tab| && tab[..|ta|] == ta
    decreases |b|
  {
    if b != [] && b[|b| - 1] == [] {
      assert (a + b)[..|a + b| - 1] == a + b[..|b| - 1];
      TrimPrefix(a, b[..|b| - 1]);
    } else if b == [] {
      assert a + b == a;
    } else {
      var ta := TrimTrailingEmpty(a);
      assert TrimTrailingEmpty(a + b) == a + b;
      assert (a + b)[..|ta|] == a[..|ta|];
    }
  }

  /** Appending a newline and more text to a non-empty request only adds fields at the end. */
  lemma SplitExtends(a: string, b: string)
    requires a != []
    ensures |Split(a)| <= |Split(a + [NEWLINE] + b)|
    ensures Split(a + [NEWLINE] + b)[..|Split(a)|] == Split(a)
  {
    var s := a + [NEWLINE] + b;
    assert s[|a|] == NEWLINE;
    PiecesConcat(a, b);
    if NEWLINE !in a {
      PiecesWithoutNewline(a);
    }
    TrimPrefix(Pieces(a), Pieces(b));
  }
}
