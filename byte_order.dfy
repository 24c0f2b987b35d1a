/** C-string view of names and the byte order of `strcmp`.
    A `char` here stands for one byte of a `std::string`; its code point is the
    byte's unsigned value, which is how `strcmp` compares. */
module ByteOrder {

  /** The terminator of a C string. */
  const Nul: char := '\0'

  /** The byte a C routine reads at index i of `s.c_str()`: past the end it reads the terminator. */
  function At(s: string, i: nat): char
  {
    if i < |s| then s[i] else Nul
  }

  /** A name with no embedded terminator, so `c_str()` shows all of it. */
  predicate NulFree(s: string)
  {
    forall i :: 0 <= i < |s| ==> s[i] != Nul
  }

  /** What a C routine sees of `s.c_str()`: the bytes before the first NUL. */
  function CStr(s: string): (r: string)
    ensures NulFree(r)
    ensures r <= s
    ensures |r| < |s| ==> s[|r|] == Nul
  {
    if |s| == 0 || s[0] == Nul then [] else [s[0]] + CStr(s[1..])
  }

  /** The sign of `strcmp(a.c_str(), b.c_str())`: bytes are compared as unsigned values
      until the first difference or the first terminator. */
  function Strcmp(a: string, b: string): (r: int)
    ensures -1 <= r <= 1
    decreases |a|
  {
    var x, y := At(a, 0), At(b, 0);
    if x != y then (if x < y then -1 else 1)
    else if x == Nul then 0
    else Strcmp(a[1..], b[1..])
  }

  /** The comparator handed to `std::binary_search`: `strcmp(lhs, rhs) < 0`.
      It is a strict order: never both ways, and never between equal C strings. */
  predicate Less(a: string, b: string)
    ensures Less(a, b) ==> Strcmp(b, a) > 0 && CStr(a) != CStr(b)
  {
    StrcmpAntisymmetric(a, b);
    StrcmpZeroIff(a, b);
    Strcmp(a, b) < 0
  }

  /** Every element precedes every later one, so there are no duplicates. */
  predicate StrictlyAscending(s: seq<string>)
  {
    forall i, j :: 0 <= i < j < |s| ==> Less(s[i], s[j])
  }

  lemma CStrOfNulFree(s: string)
    requires NulFree(s)
    ensures CStr(s) == s
  {
  }

  /** strcmp sees only what precedes the first NUL of either operand. */
  lemma {:induction false} StrcmpSeesCStr(a: string, b: string)
    ensures Strcmp(a, b) == Strcmp(CStr(a), CStr(b))
    decreases |a|
  {
    var x, y := At(a, 0), At(b, 0);
    assert At(CStr(a), 0) == x && At(CStr(b), 0) == y;
    if x == y && x != Nul {
      StrcmpSeesCStr(a[1..], b[1..]);
      assert CStr(a)[1..] == CStr(a[1..]);
      assert CStr(b)[1..] == CStr(b[1..]);
    }
  }

  /** strcmp answers 0 exactly when the two C strings are equal. */
  lemma {:induction false} StrcmpZeroIff(a: string, b: string)
    ensures Strcmp(a, b) == 0 <==> CStr(a) == CStr(b)
    decreases |a|
  {
    var x, y := At(a, 0), At(b, 0);
    assert At(CStr(a), 0) == x && At(CStr(b), 0) == y;
    if x == y && x != Nul {
      StrcmpZeroIff(a[1..], b[1..]);
      assert CStr(a) == [x] + CStr(a[1..]);
      assert CStr(b) == [y] + CStr(b[1..]);
    } else if x != y {
      assert |CStr(a)| == 0 || |CStr(b)| == 0 || CStr(a)[0] != CStr(b)[0];
    }
  }

  /** Swapping the operands negates the sign. */
  lemma {:induction false} StrcmpAntisymmetric(a: string, b: string)
    ensures Strcmp(b, a) == -Strcmp(a, b)
    decreases |a|
  {
    if At(a, 0) == At(b, 0) && At(a, 0) != Nul {
      StrcmpAntisymmetric(a[1..], b[1..]);
    }
  }

  lemma {:induction false} LessTransitive(a: string, b: string, c: string)
    requires Less(a, b) && Less(b, c)
    ensures Less(a, c)
    decreases |a|
  {
    var x, y, z := At(a, 0), At(b, 0), At(c, 0);
    if x == y && y == z {
      LessTransitive(a[1..], b[1..], c[1..]);
    }
  }

  /** strcmp stops with "less" at the first byte where a is below b, provided no terminator came before. */
  lemma {:induction false} LessAtFirstDifference(a: string, b: string, k: nat)
    requires k < |a| && k < |b| && a[..k] == b[..k]
    requires forall i :: 0 <= i < k ==> a[i] != Nul
    requires a[k] < b[k]
    ensures Less(a, b)
    decreases k
  {
    if k > 0 {
      assert a[0] == a[..k][0] == b[..k][0] == b[0];
      assert a[1..][..k - 1] == a[..k][1..] == b[..k][1..] == b[1..][..k - 1];
      LessAtFirstDifference(a[1..], b[1..], k - 1);
    }
  }

  /** Ascending neighbours make the whole sequence strictly ascending. */
  lemma {:induction false} AscendingFromNeighbours(s: seq<string>)
    requires forall i :: 0 <= i < |s| - 1 ==> Less(s[i], s[i + 1])
    ensures StrictlyAscending(s)
  {
    forall i, j | 0 <= i < j < |s| ensures Less(s[i], s[j]) {
      var k := i + 1;
      while k < j
        invariant i < k <= j
        invariant Less(s[i], s[k])
      {
        LessTransitive(s[i], s[k], s[k + 1]);
        k := k + 1;
      }
    }
  }
}
