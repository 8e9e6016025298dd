/** Turning the two decoded channels of a Monkey's Audio frame, a difference and a middle, into left and right. */
module ApeStereo {
  import opened ApeArithmetic

  /** `x / 2` in C rounds towards zero. */
  function Half(x: int): int {
    if x >= 0 then x / 2 else -(-x / 2)
  }

  function Left(d0: int, d1: int): int {
    Wrap32(d1 - Half(d0))
  }

  function Right(d0: int, d1: int): int {
    Wrap32(Left(d0, d1) + d0)
  }

  function Difference(left: int, right: int): int {
    Wrap32(right - left)
  }

  function Middle(left: int, right: int): int {
    Wrap32(left + Half(Difference(left, right)))
  }

  /** No two channels are lost or confused, even where the arithmetic wraps: the pairs correspond one to one. */
  lemma Recombines(left: int, right: int, d0: int, d1: int)
    requires Int32(left) && Int32(right) && Int32(d0) && Int32(d1)
    ensures Left(d0, d1) == left && Right(d0, d1) == right <==>
            Difference(left, right) == d0 && Middle(left, right) == d1
  {
    if Difference(left, right) == d0 && Middle(left, right) == d1 {
      var a := WrapOffset(right - left);
      var b := WrapOffset(left + Half(d0));
      WrapUnique(d1 - Half(d0), left, -b);
      WrapUnique(left + d0, right, -a);
    }
    if Left(d0, d1) == left && Right(d0, d1) == right {
      var a := WrapOffset(d1 - Half(d0));
      var b := WrapOffset(left + d0);
      WrapUnique(right - left, d0, -b);
      WrapUnique(left + Half(d0), d1, -a);
    }
  }

  /** The middle is the mean of left and right, the one nearer to left where two are. */
  lemma MiddleIsMean(left: int, right: int)
    requires Int32(left) && Int32(right) && Int32(right - left)
    ensures var m := Middle(left, right);
            && (if left <= right then left <= m <= right else right <= m <= left)
            && Distance(m, left) <= Distance(right, m) <= Distance(m, left) + 1
  {
  }

  function Distance(a: int, b: int): nat {
    if a < b then b - a else a - b
  }

  method UnpackStereo(decoded0: array<int>, decoded1: array<int>, count: nat)
    requires decoded0 != decoded1 && count <= decoded0.Length && count <= decoded1.Length
    modifies decoded0, decoded1
    ensures forall i :: 0 <= i < count ==>
              decoded0[i] == Left(old(decoded0[i]), old(decoded1[i])) && decoded1[i] == Right(old(decoded0[i]), old(decoded1[i]))
    ensures forall i :: count <= i < decoded0.Length ==> decoded0[i] == old(decoded0[i])
    ensures forall i :: count <= i < decoded1.Length ==> decoded1[i] == old(decoded1[i])
  {
    var i := 0;
    while i < count
      invariant i <= count
      invariant forall j :: 0 <= j < i ==>
                  decoded0[j] == Left(old(decoded0[j]), old(decoded1[j])) && decoded1[j] == Right(old(decoded0[j]), old(decoded1[j]))
      invariant forall j :: i <= j < decoded0.Length ==> decoded0[j] == old(decoded0[j])
      invariant forall j :: i <= j < decoded1.Length ==> decoded1[j] == old(decoded1[j])
    {
      var left := Wrap32(decoded1[i] - Half(decoded0[i]));
      var right := Wrap32(left + decoded0[i]);
      decoded0[i], decoded1[i] := left, right;
      i := i + 1;
    }
  }
}
