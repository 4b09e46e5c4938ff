/**
 * The few operations of Go's `strings` and `unicode` packages that the core
 * relies on: splitting and joining on a one-character separator, and ASCII
 * case mapping.
 */
module GoStrings {

  /** Upper-cases an ASCII letter and leaves every other character alone. */
  function ToUpper(c: char): (u: char)
    ensures c == '_' <==> u == '_'
    ensures c == '.' <==> u == '.'
    ensures ('a' <= c <= 'z') || u == c
  {
    if 'a' <= c <= 'z' then (c as int - 32) as char else c
  }

  /** Lower-cases every ASCII letter of a string. */
  function ToLower(s: string): (r: string)
    ensures |r| == |s|
    ensures forall i :: 0 <= i < |s| && !('A' <= s[i] <= 'Z') ==> r[i] == s[i]
  {
    if s == [] then ""
    else
      var c := if 'A' <= s[0] <= 'Z' then (s[0] as int + 32) as char else s[0];
      [c] + ToLower(s[1..])
  }

  /** Number of occurrences of `c` in `s`. */
  function Count(s: string, c: char): nat
  {
    if s == [] then 0 else (if s[0] == c then 1 else 0) + Count(s[1..], c)
  }

  /** `strings.Split(s, sep)` for a one-character separator; never empty. */
  function Split(s: string, sep: char): (parts: seq<string>)
    ensures |parts| >= 1
  {
    if s == [] then [""]
    else
      var rest := Split(s[1..], sep);
      if s[0] == sep then [""] + rest
      else [[s[0]] + rest[0]] + rest[1..]
  }

  /** `strings.Join(parts, sep)` for a one-character separator. */
  function Join(parts: seq<string>, sep: char): string
  {
    if |parts| == 0 then ""
    else if |parts| == 1 then parts[0]
    else parts[0] + [sep] + Join(parts[1..], sep)
  }

  /** Joining the pieces of a split gives back the original string. */
  lemma {:induction false} JoinSplit(s: string, sep: char)
    ensures Join(Split(s, sep), sep) == s
  {
    if s != [] {
      var rest := Split(s[1..], sep);
      JoinSplit(s[1..], sep);
      if s[0] == sep {
        assert Split(s, sep) == [""] + rest;
        assert ([""] + rest)[1..] == rest;
      } else {
        var parts := Split(s, sep);
        assert parts == [[s[0]] + rest[0]] + rest[1..];
        if |rest| == 1 {
          assert Join(rest, sep) == rest[0];
        } else {
          assert parts[1..] == rest[1..];
          assert Join(rest, sep) == rest[0] + [sep] + Join(rest[1..], sep);
        }
      }
    }
  }

  /** No piece of a split contains the separator. */
  lemma {:induction false} SplitPiecesLackSeparator(s: string, sep: char)
    ensures forall i :: 0 <= i < |Split(s, sep)| ==> sep !in Split(s, sep)[i]
  {
    if s != [] {
      SplitPiecesLackSeparator(s[1..], sep);
      var rest := Split(s[1..], sep);
      if s[0] != sep {
        assert sep !in rest[0];
        assert sep !in [s[0]] + rest[0];
      }
    }
  }

  /** A split yields one piece per separator occurrence, plus one. */
  lemma {:induction false} SplitLength(s: string, sep: char)
    ensures |Split(s, sep)| == Count(s, sep) + 1
  {
    if s != [] {
      SplitLength(s[1..], sep);
    }
  }

  /** A string without the separator splits into itself. */
  lemma {:induction false} SplitWithoutSeparator(s: string, sep: char)
    requires sep !in s
    ensures Split(s, sep) == [s]
  {
    if s != [] {
      assert sep !in s[1..];
      SplitWithoutSeparator(s[1..], sep);
      assert [s[0]] + s[1..] == s;
    }
  }

  /** Splitting `a + sep + b` where `a` lacks the separator peels off `a`. */
  lemma {:induction false} SplitAfterPiece(a: string, sep: char, b: string)
    requires sep !in a
    ensures Split(a + [sep] + b, sep) == [a] + Split(b, sep)
  {
    if a == [] {
      assert [sep] + b == a + [sep] + b;
      assert ([sep] + b)[1..] == b;
    } else {
      var s := a + [sep] + b;
      assert s[1..] == a[1..] + [sep] + b;
      assert sep !in a[1..];
      SplitAfterPiece(a[1..], sep, b);
      assert [a[0]] + a[1..] == a;
    }
  }

  /** Splitting a join of separator-free pieces gives the pieces back. */
  lemma {:induction false} SplitJoin(parts: seq<string>, sep: char)
    requires |parts| >= 1
    requires forall i :: 0 <= i < |parts| ==> sep !in parts[i]
    ensures Split(Join(parts, sep), sep) == parts
  {
    if |parts| == 1 {
      SplitWithoutSeparator(parts[0], sep);
    } else {
      SplitJoin(parts[1..], sep);
      SplitAfterPiece(parts[0], sep, Join(parts[1..], sep));
      assert [parts[0]] + parts[1..] == parts;
    }
  }

  /** Joining all pieces but the last, then the separator and the last piece, is the whole join. */
  lemma {:induction false} JoinSnoc(parts: seq<string>, sep: char)
    requires |parts| >= 2
    ensures Join(parts[..|parts| - 1], sep) + [sep] + parts[|parts| - 1] == Join(parts, sep)
  {
    if |parts| > 2 {
      var init := parts[..|parts| - 1];
      JoinSnoc(parts[1..], sep);
      assert parts[1..][..|parts[1..]| - 1] == init[1..];
      assert Join(init, sep) == init[0] + [sep] + Join(init[1..], sep);
    } else {
      assert parts[..1] == [parts[0]];
    }
  }

  /** The position of the first occurrence of `p` in `ps`, or -1. */
  function IndexOf(ps: seq<string>, p: string): (k: int)
    ensures -1 <= k < |ps|
    ensures k >= 0 ==> ps[k] == p && p !in ps[..k]
    ensures k == -1 <==> p !in ps
  {
    if ps == [] then -1
    else if ps[0] == p then 0
    else
      var k := IndexOf(ps[1..], p);
      if k < 0 then -1
      else
        assert ps[..k + 1] == [ps[0]] + ps[1..][..k];
        k + 1
  }

  /** Appending an element leaves the first occurrence of every other element where it was. */
  lemma {:induction false} IndexOfAppend(ps: seq<string>, q: string, p: string)
    ensures IndexOf(ps + [q], p) == if p in ps then IndexOf(ps, p) else if p == q then |ps| else -1
  {
    if ps != [] {
      assert (ps + [q])[1..] == ps[1..] + [q];
      IndexOfAppend(ps[1..], q, p);
    }
  }

  /** The first occurrence of an element does not move when the sequence grows at the end. */
  lemma IndexOfInPrefix(ps: seq<string>, qs: seq<string>, p: string)
    requires ps <= qs && p in ps
    ensures IndexOf(qs, p) == IndexOf(ps, p)
  {
    var k := IndexOf(ps, p);
    assert qs[..k] == ps[..k];
  }

  /** An element already present comes before one that only the extension adds. */
  lemma IndexOfExtensionOrder(ps: seq<string>, qs: seq<string>, p: string, q: string)
    requires ps <= qs && p in ps && q !in ps && q in qs
    ensures IndexOf(qs, p) < IndexOf(qs, q)
  {
    IndexOfInPrefix(ps, qs, p);
    assert qs[..|ps|] == ps;
  }
}
