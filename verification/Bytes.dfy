/** Bytes, fixed-width arithmetic and the few sequence facts every other module uses. */
module Bytes {

  type byte = x: int | 0 <= x < 256

  datatype Option<+T> = None | Some(value: T)

  /** Conversion to a 16-bit unsigned integer. */
  function U16(x: int): (r: nat)
    ensures r < 0x1_0000
  {
    x % 0x1_0000
  }

  /** Conversion of a C `int` to `unsigned int`, as the mixed comparisons of the drivers do it. */
  function U32(x: int): (r: nat)
    ensures r < 0x1_0000_0000
  {
    x % 0x1_0000_0000
  }

  /** The two wire orders of a 16-bit field. */
  function Be16(x: nat): seq<byte> {
    [x / 256 % 256, x % 256]
  }

  function Le16(x: nat): seq<byte> {
    [x % 256, x / 256 % 256]
  }

  function Min(a: nat, b: nat): nat {
    if a < b then a else b
  }

  ghost predicate NulFree(s: seq<byte>) {
    forall i :: 0 <= i < |s| ==> s[i] != 0
  }

  /** The C string at the start of a piece of memory: what comes before the first NUL. */
  function UpToNul(cells: seq<byte>): (s: seq<byte>)
    ensures |s| <= |cells| && s == cells[..|s|] && NulFree(s)
    ensures |s| < |cells| ==> cells[|s|] == 0
  {
    if cells == [] || cells[0] == 0 then []
    else
      var t := UpToNul(cells[1..]);
      assert cells[..|t| + 1] == [cells[0]] + t;
      [cells[0]] + t
  }

  lemma Assoc<T>(a: seq<T>, b: seq<T>, c: seq<T>)
    ensures a + (b + c) == (a + b) + c
  {
  }

  lemma Units<T>(a: seq<T>)
    ensures a + [] == a && [] + a == a
  {
  }

  lemma DropFront<T>(a: seq<T>, b: seq<T>)
    ensures (a + b)[|a|..] == b
  {
  }

  lemma DropOfAppend<T>(a: seq<T>, b: seq<T>, k: nat)
    requires k <= |a|
    ensures (a + b)[k..] == a[k..] + b
  {
  }

  lemma SubSlice<T>(m: seq<T>, a: nat, b: nat, from: nat, to: nat)
    requires a + from <= a + to <= b <= |m|
    ensures m[a..b][from..to] == m[a + from..a + to]
  {
    forall i | from <= i < to ensures m[a..b][i] == m[a + i] {
    }
  }

  /** The middle part of a concatenation, element by element. */
  lemma Middle<T>(front: seq<T>, mid: seq<T>, rest: seq<T>)
    ensures forall i :: 0 <= i < |mid| ==> (front + (mid + rest))[|front| + i] == mid[i]
    ensures forall i, j :: 0 <= i <= j <= |mid| ==>
              (front + (mid + rest))[|front| + i..|front| + j] == mid[i..j]
  {
    forall i, j | 0 <= i <= j <= |mid|
      ensures (front + (mid + rest))[|front| + i..|front| + j] == mid[i..j]
    {
    }
  }

  function Flatten<T>(ss: seq<seq<T>>): seq<T> {
    if ss == [] then [] else ss[0] + Flatten(ss[1..])
  }

  lemma {:induction false} FlattenAppend<T>(a: seq<seq<T>>, b: seq<seq<T>>)
    ensures Flatten(a + b) == Flatten(a) + Flatten(b)
  {
    if a == [] {
      Units(b);
      Units(Flatten(b));
    } else {
      FlattenAppend(a[1..], b);
      assert (a + b)[1..] == a[1..] + b;
      Assoc(a[0], Flatten(a[1..]), Flatten(b));
    }
  }

  lemma FlattenSnoc<T>(a: seq<seq<T>>, x: seq<T>)
    ensures Flatten(a + [x]) == Flatten(a) + x
  {
    FlattenAppend(a, [x]);
    Units(x);
  }

  /** A slice of an array window is a window of the array. */
  lemma SubWindow(buf: array<byte>, a: nat, b: nat, from: nat, to: nat)
    requires a + from <= a + to <= b <= buf.Length
    ensures buf[a..b][from..to] == buf[a + from..a + to]
  {
    forall i | from <= i < to ensures buf[a..b][i] == buf[a + i] {
    }
  }

  lemma ArrayCat(buf: array<byte>, a: nat, b: nat, c: nat)
    requires a <= b <= c <= buf.Length
    ensures buf[a..c] == buf[a..b] + buf[b..c]
  {
  }
}
