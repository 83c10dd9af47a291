/** Splitting and joining of sequences around a separator, in the way JavaScript's
    `split` and `join` (and a scan for a line feed in a buffer) treat them. */
module Sequences {
  datatype Option<+T> = None | Some(value: T)

  datatype Result<+T, +E> = Ok(value: T) | Err(error: E)

  /** The pieces between separators: always at least one, the last one unterminated. */
  function Split<T(==)>(s: seq<T>, sep: T): (pieces: seq<seq<T>>)
    ensures |pieces| > 0
  {
    if s == [] then [[]] else Prefixed(s[0], Split(s[1..], sep), sep)
  }

  /** The pieces once `x` is put in front of what they were cut from. */
  function Prefixed<T(==)>(x: T, pieces: seq<seq<T>>, sep: T): seq<seq<T>>
    requires |pieces| > 0
  {
    if x == sep then [[]] + pieces else [[x] + pieces[0]] + pieces[1..]
  }

  function Join<T>(pieces: seq<seq<T>>, sep: T): seq<T>
  {
    if |pieces| == 0 then []
    else if |pieces| == 1 then pieces[0]
    else pieces[0] + [sep] + Join(pieces[1..], sep)
  }

  function Last<T>(s: seq<T>): T
    requires s != []
  {
    s[|s| - 1]
  }

  function Front<T>(s: seq<T>): seq<T>
    requires s != []
  {
    s[..|s| - 1]
  }

  function Flatten<T>(parts: seq<seq<T>>): seq<T>
  {
    if parts == [] then [] else parts[0] + Flatten(parts[1..])
  }

  /** The first position of `x`, or -1. */
  function IndexOf<T(==)>(s: seq<T>, x: T): (i: int)
    ensures -1 <= i < |s|
    ensures i == -1 <==> x !in s
    ensures i >= 0 ==> s[i] == x && x !in s[..i]
  {
    if s == [] then -1
    else if s[0] == x then 0
    else
      var rest := IndexOf(s[1..], x);
      assert rest >= 0 ==> s[..rest + 1] == [s[0]] + s[1..][..rest];
      if rest == -1 then -1 else rest + 1
  }

  lemma FirstIn<T>(s: seq<T>)
    ensures s == [] || s[0] in s
  {
  }

  lemma Assoc<T>(a: seq<T>, b: seq<T>, c: seq<T>)
    ensures (a + b) + c == a + (b + c)
  {
  }

  lemma {:induction false} FlattenSnoc<T>(parts: seq<seq<T>>, x: seq<T>)
    ensures Flatten(parts + [x]) == Flatten(parts) + x
  {
    if parts == [] {
      assert [x][1..] == [];
    } else {
      assert (parts + [x])[1..] == parts[1..] + [x];
      FlattenSnoc(parts[1..], x);
    }
  }

  /** Cutting at the end of the first part of a concatenation: only the last, unterminated
      piece of the first part can grow. */
  lemma {:induction false} SplitAppend<T>(a: seq<T>, b: seq<T>, sep: T)
    ensures Split(a + b, sep) == Front(Split(a, sep)) + Split(Last(Split(a, sep)) + b, sep)
  {
    if a == [] {
      assert a + b == b && [] + b == b;
    } else {
      SplitAppend(a[1..], b, sep);
      assert (a + b)[1..] == a[1..] + b && (a + b)[0] == a[0];
      var rest := Split(a[1..], sep);
      PrefixedAppend(a[0], rest, b, sep);
    }
  }

  lemma PrefixedAppend<T>(x: T, rest: seq<seq<T>>, b: seq<T>, sep: T)
    requires rest != []
    ensures Prefixed(x, Front(rest) + Split(Last(rest) + b, sep), sep)
         == Front(Prefixed(x, rest, sep)) + Split(Last(Prefixed(x, rest, sep)) + b, sep)
  {
    if x != sep && |rest| == 1 {
      PrefixedTail(x, rest[0], b, sep);
      assert Front(rest) + Split(rest[0] + b, sep) == Split(rest[0] + b, sep);
      assert Front(Prefixed(x, rest, sep)) == [];
    } else {
      PrefixedGrows(x, rest, Split(Last(rest) + b, sep), sep);
    }
  }

  lemma PrefixedTail<T>(x: T, tail: seq<T>, b: seq<T>, sep: T)
    requires x != sep
    ensures Split([x] + tail + b, sep) == Prefixed(x, Split(tail + b, sep), sep)
  {
    assert ([x] + tail + b)[0] == x && ([x] + tail + b)[1..] == tail + b;
  }

  lemma PrefixedGrows<T>(x: T, rest: seq<seq<T>>, grown: seq<seq<T>>, sep: T)
    requires rest != [] && grown != [] && (x == sep || |rest| > 1)
    ensures Last(Prefixed(x, rest, sep)) == Last(rest)
    ensures Prefixed(x, Front(rest) + grown, sep) == Front(Prefixed(x, rest, sep)) + grown
  {
    hide Split;
    if x == sep {
      Assoc([[]], Front(rest), grown);
      assert Front([[]] + rest) == [[]] + Front(rest);
    } else {
      assert (Front(rest) + grown)[1..] == Front(rest[1..]) + grown && (Front(rest) + grown)[0] == rest[0];
      Assoc([[x] + rest[0]], Front(rest[1..]), grown);
      assert Front([[x] + rest[0]] + rest[1..]) == [[x] + rest[0]] + Front(rest[1..]);
    }
  }

  lemma {:induction false} SplitPiece<T>(s: seq<T>, sep: T)
    requires sep !in s
    ensures Split(s, sep) == [s]
  {
    if s != [] {
      SplitPiece(s[1..], sep);
      assert [s[0]] + s[1..] == s;
    }
  }

  lemma {:induction false} SplitPiecesFree<T>(s: seq<T>, sep: T)
    ensures forall k :: 0 <= k < |Split(s, sep)| ==> sep !in Split(s, sep)[k]
  {
    if s != [] {
      SplitPiecesFree(s[1..], sep);
    }
  }

  /** A separator between two parts cuts them apart. */
  lemma {:induction false} SplitAtSeparator<T>(a: seq<T>, b: seq<T>, sep: T)
    ensures Split(a + [sep] + b, sep) == Split(a, sep) + Split(b, sep)
  {
    hide Split;
    var pieces := Split(a, sep);
    SplitAppend(a, [sep] + b, sep);
    SplitPiecesFree(a, sep);
    SplitFirst(Last(pieces), b, sep);
    assert a + [sep] + b == a + ([sep] + b);
    assert Front(pieces) + ([Last(pieces)] + Split(b, sep)) == pieces + Split(b, sep);
  }

  lemma {:induction false} SplitFirst<T>(p: seq<T>, b: seq<T>, sep: T)
    requires sep !in p
    ensures Split(p + ([sep] + b), sep) == [p] + Split(b, sep)
  {
    if p == [] {
      assert p + ([sep] + b) == [sep] + b;
      assert ([sep] + b)[1..] == b;
    } else {
      assert (p + ([sep] + b))[1..] == p[1..] + ([sep] + b);
      SplitFirst(p[1..], b, sep);
      assert [p[0]] + p[1..] == p;
    }
  }

  lemma {:induction false} JoinSplit<T>(s: seq<T>, sep: T)
    ensures Join(Split(s, sep), sep) == s
  {
    if s != [] {
      var rest := Split(s[1..], sep);
      JoinSplit(s[1..], sep);
      if s[0] == sep {
        assert ([[]] + rest)[1..] == rest;
        assert s == [] + [sep] + s[1..];
      } else {
        assert ([[s[0]] + rest[0]] + rest[1..])[1..] == rest[1..];
        assert s == [s[0]] + s[1..];
      }
    }
  }

  lemma {:induction false} SplitJoin<T>(pieces: seq<seq<T>>, sep: T)
    requires pieces != []
    requires forall k :: 0 <= k < |pieces| ==> sep !in pieces[k]
    ensures Split(Join(pieces, sep), sep) == pieces
  {
    SplitPiece(pieces[0], sep);
    if |pieces| > 1 {
      SplitJoin(pieces[1..], sep);
      SplitAtSeparator(pieces[0], Join(pieces[1..], sep), sep);
    }
  }
}
