/** Spool file names: `<created_ns padded to 20 digits>-<id>.json`, and what sorting them as text means. */
module SpoolNames {
  import opened Common

  const WIDTH: nat := 20

  function Digit(d: nat): char
    requires d < 10
  {
    "0123456789"[d]
  }

  function Dec(n: nat): (s: string)
    ensures s != []
  {
    if n < 10 then [Digit(n)] else Dec(n / 10) + [Digit(n % 10)]
  }

  function Zeros(k: nat): (s: string)
    ensures |s| == k
  {
    if k == 0 then "" else "0" + Zeros(k - 1)
  }

  /** The format specification `020d`: zeros in front up to the width, never a digit cut off. */
  function Padded(n: nat, w: nat): string {
    if |Dec(n)| < w then Zeros(w - |Dec(n)|) + Dec(n) else Dec(n)
  }

  function Stem(ns: nat, id: string): string {
    Padded(ns, WIDTH) + "-" + id
  }

  function FileName(stem: string): string {
    stem + ".json"
  }

  /** Text order, by code point, a proper prefix first. */
  predicate Less(a: string, b: string) {
    if b == "" then false
    else if a == "" then true
    else a[0] < b[0] || (a[0] == b[0] && Less(a[1..], b[1..]))
  }

  // ---------------------------------------------------------------------------------------------

  /** Exactly `w` digits of n, the last ones. */
  function Fixed(n: nat, w: nat): (s: string)
    ensures |s| == w
  {
    if w == 0 then "" else Fixed(n / 10, w - 1) + [Digit(n % 10)]
  }

  lemma {:induction false} FixedZero(w: nat)
    ensures Fixed(0, w) == Zeros(w) && Zeros(w + 1) == Zeros(w) + "0"
  {
    if w > 0 {
      FixedZero(w - 1);
    }
  }

  lemma {:induction false} DecLength(n: nat, w: nat)
    requires w > 0
    ensures |Dec(n)| <= w <==> n < Pow10(w)
  {
    assert Pow10(1) == 10 * Pow10(0);
    if n < 10 {
      Pow10Positive(w - 1);
    } else if w > 1 {
      DecLength(n / 10, w - 1);
    }
  }

  lemma {:induction false} PadIsFixed(n: nat, w: nat)
    requires |Dec(n)| <= w
    ensures Zeros(w - |Dec(n)|) + Dec(n) == Fixed(n, w)
  {
    if n < 10 {
      FixedZero(w - 1);
      assert n / 10 == 0 && n % 10 == n;
    } else {
      PadIsFixed(n / 10, w - 1);
      assert Zeros(w - |Dec(n)|) + Dec(n) == Zeros(w - 1 - |Dec(n / 10)|) + Dec(n / 10) + [Digit(n % 10)];
    }
  }

  /** A difference inside the common length decides, whatever follows. */
  lemma {:induction false} LessExtends(a: string, b: string, x: string, y: string)
    requires |a| == |b| && Less(a, b)
    ensures Less(a + x, b + y)
  {
    if a != "" {
      assert (a + x)[1..] == a[1..] + x && (b + y)[1..] == b[1..] + y;
      if a[0] == b[0] {
        LessExtends(a[1..], b[1..], x, y);
      }
    }
  }

  lemma {:induction false} LessLast(a: string, c: char, d: char)
    requires c < d
    ensures Less(a + [c], a + [d])
  {
    if a != "" {
      assert (a + [c])[1..] == a[1..] + [c] && (a + [d])[1..] == a[1..] + [d];
      LessLast(a[1..], c, d);
    }
  }

  lemma {:induction false} FixedOrder(n: nat, m: nat, w: nat)
    requires n < m < Pow10(w)
    ensures Less(Fixed(n, w), Fixed(m, w))
  {
    if w > 0 {
      if n / 10 < m / 10 {
        FixedOrder(n / 10, m / 10, w - 1);
        LessExtends(Fixed(n / 10, w - 1), Fixed(m / 10, w - 1), [Digit(n % 10)], [Digit(m % 10)]);
      } else {
        LessLast(Fixed(n / 10, w - 1), Digit(n % 10), Digit(m % 10));
      }
    }
  }

  lemma PaddedIsFixed(n: nat, w: nat)
    requires |Dec(n)| <= w
    ensures Padded(n, w) == Fixed(n, w)
  {
    PadIsFixed(n, w);
    assert Zeros(0) + Dec(n) == Dec(n);
  }

  lemma PaddedOrder(n: nat, m: nat, w: nat)
    requires n < m < Pow10(w) && w > 0
    ensures |Padded(n, w)| == |Padded(m, w)| && Less(Padded(n, w), Padded(m, w))
  {
    DecLength(n, w);
    DecLength(m, w);
    PaddedIsFixed(n, w);
    PaddedIsFixed(m, w);
    FixedOrder(n, m, w);
  }

  lemma NameOrder(n: nat, m: nat, x: string, y: string)
    requires n < m < Pow10(WIDTH)
    ensures Less(FileName(Stem(n, x)), FileName(Stem(m, y)))
  {
    hide Pow10, Padded, Less;
    PaddedOrder(n, m, WIDTH);
    LessExtends(Padded(n, WIDTH), Padded(m, WIDTH), "-" + x + ".json", "-" + y + ".json");
    assert FileName(Stem(n, x)) == Padded(n, WIDTH) + ("-" + x + ".json");
    assert FileName(Stem(m, y)) == Padded(m, WIDTH) + ("-" + y + ".json");
  }

  /** Sorting the names of all batches created before `bound` sorts them by creation time. */
  ghost predicate SortsChronologically(bound: nat) {
    forall n: nat, m: nat, x: string, y: string | n < m < bound ::
      Less(FileName(Stem(n, x)), FileName(Stem(m, y)))
  }

  /** The padding is wide enough exactly for the times of at most 20 digits; the next instant breaks the order. */
  lemma ChronologicalExactlyBelow(bound: nat)
    ensures SortsChronologically(bound) <==> bound <= Pow10(20)
  {
    hide Pow10;
    if bound <= Pow10(WIDTH) {
      forall n: nat, m: nat, x: string, y: string | n < m < bound
        ensures Less(FileName(Stem(n, x)), FileName(Stem(m, y)))
      {
        NameOrder(n, m, x, y);
      }
    } else {
      var m := Pow10(WIDTH);
      FirstDigits(WIDTH);
      var nines, one := FileName(Stem(m - 1, "")), FileName(Stem(m, ""));
      assert nines[0] == '9' && one[0] == '1';
      assert !Less(nines, one);
    }
  }

  lemma FirstDigits(w: nat)
    requires w > 0
    ensures Pow10(w) > 1 && Padded(Pow10(w) - 1, w)[0] == '9' && Padded(Pow10(w), w)[0] == '1'
  {
    Nines(w);
    OneZeros(w);
    DecLength(Pow10(w), w);
  }

  lemma {:induction false} Nines(w: nat)
    requires w > 0
    ensures Pow10(w) >= 10 && Dec(Pow10(w) - 1)[0] == '9' && |Dec(Pow10(w) - 1)| == w
  {
    if w == 1 {
      assert Pow10(1) == 10 * Pow10(0);
    } else {
      Nines(w - 1);
      assert (Pow10(w) - 1) / 10 == Pow10(w - 1) - 1;
    }
  }

  lemma {:induction false} OneZeros(w: nat)
    ensures Pow10(w) > 0 && Dec(Pow10(w))[0] == '1'
  {
    if w > 0 {
      OneZeros(w - 1);
      assert Pow10(w) / 10 == Pow10(w - 1);
    }
  }
}
