/**
 * ASCII string helpers standing in for JavaScript's `toLowerCase`,
 * `toUpperCase`, `startsWith`, `includes`, `split` and `join`.
 * Only the ASCII letters change case; every other character is kept.
 */
module Text {

  predicate IsLowerLetter(c: char) { 'a' <= c <= 'z' }
  predicate IsUpperLetter(c: char) { 'A' <= c <= 'Z' }

  function LowerChar(c: char): (r: char)
    ensures !IsUpperLetter(r)
    ensures IsUpperLetter(c) ==> r as int == c as int + 32
    ensures !IsUpperLetter(c) ==> r == c
  {
    if IsUpperLetter(c) then (c as int + 32) as char else c
  }

  function UpperChar(c: char): (r: char)
    ensures !IsLowerLetter(r)
    ensures IsLowerLetter(c) ==> r as int == c as int - 32
    ensures !IsLowerLetter(c) ==> r == c
  {
    if IsLowerLetter(c) then (c as int - 32) as char else c
  }

  /** `s.toLowerCase()` on ASCII. */
  function Lower(s: string): (r: string)
    ensures |r| == |s|
    ensures forall i :: 0 <= i < |s| ==> r[i] == LowerChar(s[i])
  {
    seq(|s|, i requires 0 <= i < |s| => LowerChar(s[i]))
  }

  /** `s.toUpperCase()` on ASCII. */
  function Upper(s: string): (r: string)
    ensures |r| == |s|
    ensures forall i :: 0 <= i < |s| ==> r[i] == UpperChar(s[i])
  {
    seq(|s|, i requires 0 <= i < |s| => UpperChar(s[i]))
  }

  /** Lower-casing twice is lower-casing once. */
  lemma LowerIdempotent(s: string)
    ensures Lower(Lower(s)) == Lower(s)
  {
    assert forall i :: 0 <= i < |s| ==> Lower(Lower(s))[i] == Lower(s)[i];
  }

  /** `s.startsWith(prefix)`. */
  predicate StartsWith(s: string, prefix: string) {
    |prefix| <= |s| && s[..|prefix|] == prefix
  }

  /** `q` occurs in `s` starting at position `i`. */
  predicate OccursAt(s: string, q: string, i: int) {
    0 <= i && i + |q| <= |s| && s[i..i + |q|] == q
  }

  /** `s.includes(q)`: `q` is a contiguous substring of `s` (always true for empty `q`). */
  function Includes(s: string, q: string): (r: bool)
    ensures r <==> exists i :: OccursAt(s, q, i)
    decreases |s|
  {
    if |q| > |s| then false
    else if s[..|q|] == q then (assert OccursAt(s, q, 0); true)
    else
      var rest := Includes(s[1..], q);
      assert forall i :: OccursAt(s[1..], q, i) ==> OccursAt(s, q, i + 1) by {
        forall i | OccursAt(s[1..], q, i) ensures OccursAt(s, q, i + 1) {
          assert s[1..][i..i + |q|] == s[i + 1..i + 1 + |q|];
        }
      }
      assert forall i :: OccursAt(s, q, i) ==> OccursAt(s[1..], q, i - 1) by {
        forall i | OccursAt(s, q, i) ensures OccursAt(s[1..], q, i - 1) {
          assert i != 0;
          assert s[1..][i - 1..i - 1 + |q|] == s[i..i + |q|];
        }
      }
      rest
  }

  /**
   * `s.split(d)` for a one-character separator: the maximal pieces between
   * separators, always at least one (`"".split("/")` is `[""]`).
   */
  function Split(s: string, d: char): (r: seq<string>)
    ensures |r| >= 1
    ensures forall piece :: piece in r ==> d !in piece
    decreases |s|
  {
    if s == [] then [""]
    else
      var rest := Split(s[1..], d);
      if s[0] == d then [""] + rest
      else [[s[0]] + rest[0]] + rest[1..]
  }

  /** `parts.join(d)`. */
  function Join(parts: seq<string>, d: char): string
    decreases |parts|
  {
    if parts == [] then ""
    else if |parts| == 1 then parts[0]
    else parts[0] + [d] + Join(parts[1..], d)
  }

  /** Joining the pieces of a split gives back the original string. */
  lemma {:induction false} JoinSplit(s: string, d: char)
    ensures Join(Split(s, d), d) == s
    decreases |s|
  {
    if s != [] {
      var rest := Split(s[1..], d);
      JoinSplit(s[1..], d);
      if s[0] == d {
        assert Split(s, d) == [""] + rest;
        assert ([""] + rest)[1..] == rest;
      } else {
        var parts := [[s[0]] + rest[0]] + rest[1..];
        assert Split(s, d) == parts;
        if |rest| == 1 {
          assert Join(rest, d) == rest[0];
        } else {
          assert parts[1..] == rest[1..];
          assert Join(rest, d) == rest[0] + [d] + Join(rest[1..], d);
        }
      }
    }
  }

  /** Splitting a join of separator-free pieces gives back the pieces. */
  lemma {:induction false} SplitJoin(parts: seq<string>, d: char)
    requires |parts| >= 1
    requires forall piece :: piece in parts ==> d !in piece
    ensures Split(Join(parts, d), d) == parts
    decreases |parts|, |parts[0]|
  {
    if |parts| == 1 {
      SplitPiece(parts[0], d);
    } else if parts[0] == [] {
      var tail := Join(parts[1..], d);
      assert Join(parts, d) == [d] + tail;
      assert ([d] + tail)[1..] == tail;
      SplitJoin(parts[1..], d);
      assert parts == [""] + parts[1..];
    } else {
      var p0 := parts[0];
      var shorter := [p0[1..]] + parts[1..];
      assert shorter[1..] == parts[1..];
      assert Join(shorter, d) == p0[1..] + [d] + Join(parts[1..], d);
      var j := Join(parts, d);
      assert j == p0 + [d] + Join(parts[1..], d);
      assert j[0] == p0[0] && j[1..] == Join(shorter, d);
      assert p0 in parts;
      assert forall piece :: piece in shorter ==> piece == p0[1..] || piece in parts[1..];
      assert d != p0[0] && d !in p0[1..];
      SplitJoin(shorter, d);
      assert [p0[0]] + p0[1..] == p0;
      assert parts == [[p0[0]] + p0[1..]] + parts[1..];
    }
  }

  /** A string without the separator splits into itself alone. */
  lemma {:induction false} SplitPiece(s: string, d: char)
    requires d !in s
    ensures Split(s, d) == [s]
    decreases |s|
  {
    if s != [] {
      SplitPiece(s[1..], d);
      assert [s[0]] + s[1..] == s;
    }
  }
}
