/** Splitting a string on a separator character, as Rust's `str::split` does
    for a one-character pattern, and joining pieces back with that separator.

    Split keeps empty pieces: "" gives [""], "/" gives ["", ""] and
    "/user_info/bob" gives ["", "user_info", "bob"]. Join is its inverse, and
    the lemmas below show that the two determine each other. */
module Strings {

  /** The number of occurrences of `sep` in `s`. */
  function Occurrences(s: string, sep: char): nat
  {
    if s == [] then 0 else (if s[0] == sep then 1 else 0) + Occurrences(s[1..], sep)
  }

  /** The pieces of `s` between occurrences of `sep`, in order, empty pieces
      included; there is always one piece more than there are separators. */
  function Split(s: string, sep: char): (pieces: seq<string>)
    ensures |pieces| >= 1
  {
    if s == [] then [""]
    else
      var rest := Split(s[1..], sep);
      if s[0] == sep then [""] + rest
      else [[s[0]] + rest[0]] + rest[1..]
  }

  /** A split has one piece more than the string has separators. */
  lemma {:induction false} SplitCount(s: string, sep: char)
    ensures |Split(s, sep)| == Occurrences(s, sep) + 1
  {
    if s != [] {
      SplitCount(s[1..], sep);
    }
  }

  /** No piece of a split contains the separator. */
  lemma {:induction false} SplitPiecesFree(s: string, sep: char)
    ensures forall i :: 0 <= i < |Split(s, sep)| ==> sep !in Split(s, sep)[i]
  {
    if s != [] {
      SplitPiecesFree(s[1..], sep);
      var rest := Split(s[1..], sep);
      if s[0] != sep {
        var pieces := [[s[0]] + rest[0]] + rest[1..];
        assert Split(s, sep) == pieces;
        forall i | 0 <= i < |pieces|
          ensures sep !in pieces[i]
        {
          if i > 0 {
            assert pieces[i] == rest[i];
          }
        }
      }
    }
  }

  /** The pieces written one after another with `sep` between neighbours. */
  function Join(pieces: seq<string>, sep: char): string
  {
    if |pieces| == 0 then ""
    else if |pieces| == 1 then pieces[0]
    else pieces[0] + [sep] + Join(pieces[1..], sep)
  }

  lemma JoinCons(p: string, rest: seq<string>, sep: char)
    requires |rest| >= 1
    ensures Join([p] + rest, sep) == p + [sep] + Join(rest, sep)
  {
    assert ([p] + rest)[1..] == rest;
  }

  /** Putting a character in front of the first piece puts it in front of
      the join. */
  lemma JoinExtendFirst(c: char, rest: seq<string>, sep: char)
    requires |rest| >= 1
    ensures Join([[c] + rest[0]] + rest[1..], sep) == [c] + Join(rest, sep)
  {
    if |rest| >= 2 {
      JoinCons([c] + rest[0], rest[1..], sep);
      JoinCons(rest[0], rest[1..], sep);
      assert [rest[0]] + rest[1..] == rest;
    }
  }

  /** Joining the pieces of a split gives back the original string. */
  lemma {:induction false} JoinSplit(s: string, sep: char)
    ensures Join(Split(s, sep), sep) == s
  {
    if s != [] {
      var rest := Split(s[1..], sep);
      JoinSplit(s[1..], sep);
      assert s == [s[0]] + s[1..];
      if s[0] == sep {
        assert Split(s, sep) == [""] + rest;
        JoinCons("", rest, sep);
      } else {
        assert Split(s, sep) == [[s[0]] + rest[0]] + rest[1..];
        JoinExtendFirst(s[0], rest, sep);
      }
    }
  }

  /** One step of Split at a leading separator. */
  lemma SplitSeparatorFirst(t: string, sep: char)
    ensures Split([sep] + t, sep) == [""] + Split(t, sep)
  {
    assert ([sep] + t)[1..] == t;
  }

  /** One step of Split at a leading character other than the separator. */
  lemma SplitOtherFirst(c: char, t: string, sep: char)
    requires c != sep
    ensures Split([c] + t, sep) == [[c] + Split(t, sep)[0]] + Split(t, sep)[1..]
  {
    assert ([c] + t)[1..] == t;
  }

  /** Lengthening the first piece commutes with appending further pieces. */
  lemma ExtendFirstAppend(c: char, r: seq<string>, q: seq<string>)
    requires |r| >= 1
    ensures [[c] + (r + q)[0]] + (r + q)[1..] == ([[c] + r[0]] + r[1..]) + q
  {
    assert (r + q)[0] == r[0];
    assert (r + q)[1..] == r[1..] + q;
  }

  /** The inductive step of SplitConcat for a leading separator. */
  lemma SplitConcatSeparatorStep(a: string, b: string, sep: char)
    requires Split(a + [sep] + b, sep) == Split(a, sep) + Split(b, sep)
    ensures Split([sep] + a + [sep] + b, sep) == Split([sep] + a, sep) + Split(b, sep)
  {
    assert [sep] + a + [sep] + b == [sep] + (a + [sep] + b);
    SplitSeparatorFirst(a + [sep] + b, sep);
    SplitSeparatorFirst(a, sep);
  }

  /** The inductive step of SplitConcat for a leading character other than
      the separator. */
  lemma SplitConcatOtherStep(c: char, a: string, b: string, sep: char)
    requires c != sep
    requires Split(a + [sep] + b, sep) == Split(a, sep) + Split(b, sep)
    ensures Split([c] + a + [sep] + b, sep) == Split([c] + a, sep) + Split(b, sep)
  {
    assert [c] + a + [sep] + b == [c] + (a + [sep] + b);
    SplitOtherFirst(c, a + [sep] + b, sep);
    SplitOtherFirst(c, a, sep);
    ExtendFirstAppend(c, Split(a, sep), Split(b, sep));
  }

  /** Splitting at one separator splits the two sides independently. */
  lemma {:induction false} SplitConcat(a: string, b: string, sep: char)
    ensures Split(a + [sep] + b, sep) == Split(a, sep) + Split(b, sep)
  {
    if a == [] {
      assert a + [sep] + b == [sep] + b;
      SplitSeparatorFirst(b, sep);
    } else {
      SplitConcat(a[1..], b, sep);
      if a[0] == sep {
        SplitConcatSeparatorStep(a[1..], b, sep);
      } else {
        SplitConcatOtherStep(a[0], a[1..], b, sep);
      }
      assert [a[0]] + a[1..] == a;
    }
  }

  /** A string without the separator is a single piece. */
  lemma {:induction false} SplitWithoutSeparator(s: string, sep: char)
    requires sep !in s
    ensures Split(s, sep) == [s]
  {
    if s != [] {
      assert sep !in s[1..];
      SplitWithoutSeparator(s[1..], sep);
      assert [s[0]] + s[1..] == s;
    }
  }

  /** Splitting a join of separator-free pieces gives back the pieces, so a
      split is the only sequence of separator-free pieces that joins to `s`. */
  lemma {:induction false} SplitJoin(pieces: seq<string>, sep: char)
    requires |pieces| >= 1
    requires forall i :: 0 <= i < |pieces| ==> sep !in pieces[i]
    ensures Split(Join(pieces, sep), sep) == pieces
  {
    if |pieces| == 1 {
      SplitWithoutSeparator(pieces[0], sep);
    } else {
      SplitWithoutSeparator(pieces[0], sep);
      SplitJoin(pieces[1..], sep);
      SplitConcat(pieces[0], Join(pieces[1..], sep), sep);
      assert [pieces[0]] + pieces[1..] == pieces;
    }
  }

  /** The pieces of `Join(pieces) + rest` begin with `pieces` whenever `rest`
      is empty or begins with the separator: trailing text cannot change the
      leading pieces. */
  lemma SplitLeading(pieces: seq<string>, rest: string, sep: char)
    requires |pieces| >= 1
    requires forall i :: 0 <= i < |pieces| ==> sep !in pieces[i]
    requires rest == [] || rest[0] == sep
    ensures |Split(Join(pieces, sep) + rest, sep)| >= |pieces|
    ensures Split(Join(pieces, sep) + rest, sep)[..|pieces|] == pieces
  {
    SplitJoin(pieces, sep);
    if rest == [] {
      assert Join(pieces, sep) + rest == Join(pieces, sep);
    } else {
      assert Join(pieces, sep) + rest == Join(pieces, sep) + [sep] + rest[1..];
      SplitConcat(Join(pieces, sep), rest[1..], sep);
      assert (pieces + Split(rest[1..], sep))[..|pieces|] == pieces;
    }
  }

  /** The first piece is empty exactly when `s` is empty or starts with the
      separator. */
  lemma FirstPieceEmpty(s: string, sep: char)
    ensures Split(s, sep)[0] == "" <==> (s == [] || s[0] == sep)
  {
    if s != [] && s[0] != sep {
      var rest := Split(s[1..], sep);
      assert Split(s, sep)[0] == [s[0]] + rest[0];
    }
  }

  /** A single empty piece comes only from the empty string. */
  lemma OnePieceEmpty(s: string, sep: char)
    requires |Split(s, sep)| == 1 && Split(s, sep)[0] == ""
    ensures s == []
  {
    JoinSplit(s, sep);
  }
}
