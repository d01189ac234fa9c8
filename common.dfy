/** Fixed-width integer types of the C sources and the usual Option wrapper. */
module Common {

  /** `uint8_t` */
  type byte = x: int | 0 <= x < 0x100
  /** `uint16_t` */
  type uint16 = x: int | 0 <= x < 0x1_0000
  /** `uint32_t` */
  type uint32 = x: int | 0 <= x < 0x1_0000_0000

  datatype Option<+T> = None | Some(value: T)

  /** A sequence holding zero or one element: what an optional append adds. */
  function OptionToSeq<T>(o: Option<T>): (r: seq<T>)
    ensures |r| <= 1
    ensures o.Some? <==> |r| == 1
    ensures o.Some? ==> r[0] == o.value
  {
    match o
    case None => []
    case Some(v) => [v]
  }

  /** Number of elements of `s` equal to `x`. */
  function Count<T(==)>(s: seq<T>, x: T): (n: nat)
    ensures n <= |s|
    ensures n == 0 <==> x !in s
  {
    if s == [] then 0 else (if s[0] == x then 1 else 0) + Count(s[1..], x)
  }

  lemma {:induction false} CountAppend<T>(a: seq<T>, b: seq<T>, x: T)
    ensures Count(a + b, x) == Count(a, x) + Count(b, x)
  {
    if a == [] {
      assert a + b == b;
    } else {
      assert (a + b)[1..] == a[1..] + b;
      CountAppend(a[1..], b, x);
    }
  }
}
