/** The key table of the VIE encryption: enc_vie.c's generator, which divides by
    multiplying and shifting and never leaves 32 bits, enc.py's, and the sequence of
    residues both compute. */
module Keystream {
  import opened Options

  const MODULUS: int := 0x7FFF_FFFF
  const MAGIC: int := 0x834E_0B5F
  const TWO48: int := 0x1_0000_0000_0000
  const ENTRIES: nat := 260

  newtype int32 = x: int | -0x8000_0000 <= x < 0x8000_0000
  newtype int64 = x: int | -0x8000_0000_0000_0000 <= x < 0x8000_0000_0000_0000

  type u16 = x: int | 0 <= x < 0x1_0000

  predicate ValidKey(k: int) { 1 <= k <= MODULUS }

  /** A key other than zero, which means no encryption. */
  predicate AnyKey(k: int) { -0x8000_0000 <= k < 0x8000_0000 && k != 0 }

  /** What the next key is congruent to. For a negative key both programs take a quotient
      that is two too low. */
  function Target(k: int): int { 16807 * k + 123 + if k < 0 then 2 * 2836 else 0 }

  /** The member of 1..2^31-1 of a residue class modulo 2^31-1. */
  function Residue(a: int): int { if a % MODULUS == 0 then MODULUS else a % MODULUS }

  function NextKey(k: int): int { Residue(Target(k)) }

  /** The key after n steps. */
  function KeyAfter(k: int, n: nat): int
    decreases n, k
  {
    if n == 0 then k else NextKey(KeyAfter(k, n - 1))
  }

  /** The table: the low 16 bits of the keys after the first. */
  function Table(k: int): seq<u16> { seq(ENTRIES, i requires i >= 0 => KeyAfter(k, i + 1) % 0x1_0000) }

  /** enc.py's next key, whose remainder is off by the divisor for a negative multiple. */
  function NextInPython(k: int): int { Residue(Target(k) + if k < 0 && k % 127773 == 0 then 2836 else 0) }

  function PythonKeyAfter(k: int, n: nat): int
    decreases n, k
  {
    if n == 0 then k else NextInPython(PythonKeyAfter(k, n - 1))
  }

  function PythonTable(k: int): seq<u16> { seq(ENTRIES, i requires i >= 0 => PythonKeyAfter(k, i + 1) % 0x1_0000) }

  lemma ResidueOf(a: int)
    ensures ValidKey(Residue(a)) && (Residue(a) - a) % MODULUS == 0
  {
    var q := a / MODULUS;
    assert a == MODULUS * q + a % MODULUS;
    assert Residue(a) - a == MODULUS * (if a % MODULUS == 0 then 1 - q else -q);
    MultipleOf(if a % MODULUS == 0 then 1 - q else -q);
  }

  lemma MultipleOf(q: int)
    ensures (MODULUS * q) % MODULUS == 0
  {
  }

  lemma NextKeyValid(k: int)
    ensures ValidKey(NextKey(k)) && (NextKey(k) - Target(k)) % MODULUS == 0
  {
    ResidueOf(Target(k));
  }

  /** The generator in plain numbers: a key and the next. */
  predicate Follows(k: int, next: int) {
    && 1 <= next <= 2147483647
    && (if k < 0 then (next - (16807 * k + 123 + 5672)) % 2147483647 == 0 else (next - (16807 * k + 123)) % 2147483647 == 0)
  }

  lemma NextKeyFollows(k: int)
    ensures Follows(k, NextKey(k))
  {
    NextKeyValid(k);
  }

  /** The table holds the low halves of 260 keys, each made from the one before, the first
      from the key of the connection. */
  lemma TableIs(k: int) returns (keys: seq<int>)
    ensures |keys| == 261 && keys[0] == k && |Table(k)| == 260
    ensures forall i | 0 <= i < 260 :: Follows(keys[i], keys[i + 1])
    ensures forall i | 0 <= i < 260 :: Table(k)[i] == keys[i + 1] % 65536
  {
    keys := seq(261, i requires i >= 0 => KeyAfter(k, i));
    forall i | 0 <= i < 260 ensures Follows(keys[i], keys[i + 1]) {
      NextKeyFollows(KeyAfter(k, i));
    }
  }

  /** There is only one such member. */
  lemma NextKeyUnique(k: int, r: int)
    requires ValidKey(r) && (r - Target(k)) % MODULUS == 0
    ensures r == NextKey(k)
  {
    ResidueUnique(Target(k), r);
  }

  lemma ResidueUnique(c: int, r: int)
    requires ValidKey(r) && (r - c) % MODULUS == 0
    ensures r == Residue(c)
  {
    ResidueOf(c);
    var a, b := r - c, Residue(c) - c;
    assert a == MODULUS * (a / MODULUS) && b == MODULUS * (b / MODULUS);
    assert r - Residue(c) == MODULUS * (a / MODULUS - b / MODULUS);
  }

  lemma {:induction false} KeyAfterValid(k: int, n: nat)
    ensures n > 0 ==> ValidKey(KeyAfter(k, n)) && ValidKey(PythonKeyAfter(k, n))
    decreases n
  {
    if n > 0 {
      ResidueOf(Target(KeyAfter(k, n - 1)));
      var p := PythonKeyAfter(k, n - 1);
      ResidueOf(Target(p) + if p < 0 && p % 127773 == 0 then 2836 else 0);
    }
  }

  // ----------------------------------------------------- the magic division

  /** Multiplying by the magic number and shifting 48 bits divides by 127773 exactly, and
      the product fits a signed 64-bit integer. */
  lemma MagicDivides(k: int)
    requires ValidKey(k)
    ensures 0 <= k * MAGIC < 0x8000_0000_0000_0000
    ensures k * MAGIC / TWO48 == k / 127773
    ensures 0 <= k / 127773 <= 16807
  {
    var q, r := k / 127773, k % 127773;
    assert k == 127773 * q + r && 0 <= r <= 127772 && 0 <= q <= 16807;
    var rest := MagicRest(q, r);
    assert k * MAGIC == q * TWO48 + rest;
    Quotient(k * MAGIC, q, rest);
  }

  /** What is left of the product once its multiple of 2^48 is taken off. */
  lemma MagicRest(q: int, r: int) returns (rest: int)
    requires 0 <= q <= 16807 && 0 <= r <= 127772
    ensures (127773 * q + r) * MAGIC == q * TWO48 + rest && 0 <= rest < TWO48
    ensures q > 0 || r > 0 ==> rest > 0
  {
    var e := MAGIC * 127773 - TWO48;
    rest := q * e + r * MAGIC;
    assert 0 <= q * e <= 16807 * e && 0 <= r * MAGIC <= 127772 * MAGIC;
    if q > 0 { assert q * e >= e; }
  }

  lemma Quotient(a: int, q: int, r: int)
    requires a == q * TWO48 + r && 0 <= r < TWO48
    ensures a / TWO48 == q
  {
  }

  /** For a negative key the shift rounds down, to one below minus the quotient. */
  lemma MagicOfNegative(k: int)
    requires -0x8000_0000 <= k < 0
    ensures -0x8000_0000_0000_0000 <= k * MAGIC < 0
    ensures k * MAGIC / TWO48 == -(-k / 127773) - 1
    ensures 0 <= -k / 127773 <= 16807
  {
    var q, r := -k / 127773, -k % 127773;
    assert -k == 127773 * q + r && 0 <= r <= 127772 && 0 <= q <= 16807;
    var rest := MagicRest(q, r);
    assert -k * MAGIC == q * TWO48 + rest;
    assert q > 0 || r > 0;
    Quotient(k * MAGIC, -q - 1, TWO48 - rest);
  }

  /** The step both programs take, once the quotient is known. */
  lemma StepIsNext(k: int)
    requires ValidKey(k)
    ensures var s := k % 127773 * 16807 - k / 127773 * 2836 + 123;
            -MODULUS < s < MODULUS && NextKey(k) == if s <= 0 then s + MODULUS else s
  {
    var q, r := k / 127773, k % 127773;
    MagicDivides(k);
    assert k == 127773 * q + r;
    var s := r * 16807 - q * 2836 + 123;
    assert 0 <= q * 2836 <= 16807 * 2836 && 0 <= r * 16807 <= 127772 * 16807;
    assert Target(k) == q * MODULUS + s;
    Wraps(Target(k), q, s);
  }

  /** Of a step's two values, the one that is kept is in range. */
  lemma Wraps(a: int, q: int, s: int)
    requires a == q * MODULUS + s && -MODULUS < s < MODULUS
    ensures Residue(a) == if s <= 0 then s + MODULUS else s
  {
    var next := if s <= 0 then s + MODULUS else s;
    assert next - a == MODULUS * (if s <= 0 then 1 - q else -q);
    MultipleOf(if s <= 0 then 1 - q else -q);
    ResidueUnique(a, next);
  }

  /** The same for a negative key, with the remainder C gives it. */
  lemma StepFromNegative(k: int)
    requires -0x8000_0000 <= k < 0
    ensures var s := -(-k % 127773) * 16807 + (-k / 127773 + 2) * 2836 + 123;
            -MODULUS < s < MODULUS && NextKey(k) == if s <= 0 then s + MODULUS else s
    ensures 0 <= -k / 127773 <= 16807
  {
    var q, r := -k / 127773, -k % 127773;
    MagicOfNegative(k);
    assert -k == 127773 * q + r;
    var s := -r * 16807 + (q + 2) * 2836 + 123;
    assert 0 <= q * 2836 <= 16807 * 2836 && 0 <= r * 16807 <= 127772 * 16807;
    assert Target(k) == -q * MODULUS + s;
    Wraps(Target(k), -q, s);
  }

  // ------------------------------------------------------------- enc_vie.c

  /** t >> 31 */
  function SignOf(t: int32): int32 { if t < 0 then -1 else 0 }

  /** k % 127773 in C, where the remainder has the sign of k. */
  function Remainder(k: int32): (r: int32)
    ensures r as int == if k < 0 then -(-(k as int) % 127773) else k as int % 127773
  {
    RemainderOfNegative(k as int);
    var m := k % 127773;
    if k < 0 && m != 0 then m - 127773 else m
  }

  lemma RemainderOfNegative(k: int)
    ensures -(-k % 127773) == if k % 127773 == 0 then 0 else k % 127773 - 127773
    ensures -k / 127773 == -(k / 127773) - if k % 127773 == 0 then 0 else 1
  {
    var q, r := k / 127773, k % 127773;
    assert k == 127773 * q + r;
    if r == 0 {
      DividesAs(-k, -q, 0);
    } else {
      DividesAs(-k, -q - 1, 127773 - r);
    }
  }

  lemma DividesAs(a: int, q: int, r: int)
    requires a == 127773 * q + r && 0 <= r < 127773
    ensures a / 127773 == q && a % 127773 == r
  {
  }

  /** One turn of do_init's loop; the types show that nothing overflows. */
  method StepC(k: int32) returns (k': int32)
    requires k != 0
    ensures k' as int == NextKey(k as int)
  {
    if k > 0 { MagicDivides(k as int); StepIsNext(k as int); } else { StepFromNegative(k as int); MagicOfNegative(k as int); }
    var product: int64 := k as int64 * 0x834E_0B5F;
    var t: int32 := (product / 0x1_0000_0000_0000) as int32;
    t := t + SignOf(t);
    k' := Remainder(k) * 16807 - t * 2836 + 123;
    if k' == 0 || k' < 0 { k' := k' + 0x7FFF_FFFF; }
  }

  // ---------------------------------------------------------------- enc.py

  lemma ShiftTwice(a: int)
    ensures a / 0x1_0000_0000 / 0x1_0000 == a / TWO48
  {
    var q, r := a / TWO48, a % TWO48;
    assert a == TWO48 * q + r;
    assert a / 0x1_0000_0000 == 0x1_0000 * q + r / 0x1_0000_0000;
  }

  lemma SignedMagic(k: int)
    ensures (k * -2092037281) / 0x1_0000_0000 + k == k * MAGIC / 0x1_0000_0000
  {
    assert k * -2092037281 == k * MAGIC - 0x1_0000_0000 * k;
  }

  /** The quotient gen_keystream computes. */
  lemma PythonQuotient(k: int)
    requires AnyKey(k)
    ensures (k * -2092037281 / 0x1_0000_0000 + k) / 0x1_0000 == if k > 0 then k / 127773 else -(-k / 127773) - 1
  {
    if k > 0 { MagicDivides(k); } else { MagicOfNegative(k); }
    SignedMagic(k);
    ShiftTwice(k * MAGIC);
  }

  /** What gen_keystream makes of a negative key. */
  lemma PythonFromNegative(k: int)
    requires -0x8000_0000 <= k < 0
    ensures var s := (k % 127773 - 127773) * 16807 + (-k / 127773 + 2) * 2836 + 123;
            NextInPython(k) == if s <= 0 then s + MODULUS else s
  {
    StepFromNegative(k);
    RemainderOfNegative(k);
    var q := -k / 127773;
    var s := (k % 127773 - 127773) * 16807 + (q + 2) * 2836 + 123;
    if k % 127773 == 0 {
      assert k == -127773 * q;
      assert Target(k) + 2836 == (1 - q) * MODULUS + s;
      Wraps(Target(k) + 2836, 1 - q, s);
    }
  }

  /** The quotient, with the sign's bit added as in C. */
  method QuotientInPython(k: int) returns (t: int)
    requires AnyKey(k)
    ensures t == if k > 0 then k / 127773 else -(-k / 127773) - 2
  {
    PythonQuotient(k);
    if k > 0 { MagicDivides(k); } else { MagicOfNegative(k); }
    t := k * -2092037281 / 0x1_0000_0000;
    t := (t + k) / 0x1_0000;
    t := t + t / 0x8000_0000;
  }

  /** One turn of gen_keystream's loop, with the magic number as a negative one and the
      multiplication by 2836 taken apart. */
  method StepPython(k: int) returns (k': int)
    requires AnyKey(k)
    ensures k' == NextInPython(k)
  {
    if k > 0 { StepIsNext(k); } else { PythonFromNegative(k); }
    var t := QuotientInPython(k);
    t := ((t * 9 * 8 - t) * 5 * 2 - t) * 4;
    var rem := k % 0x1F31D;
    if k < 0 { rem := rem - 0x1F31D; }
    k' := rem * 0x41A7 - t + 0x7B;
    if k' == 0 || k' < 0 { k' := k' + 0x7FFF_FFFF; }
  }

  /** A 32-bit key, signed or not, as a signed one. */
  function Signed(key: int): int { if key > 0x7FFF_FFFF then key - 0x1_0000_0000 else key }

  lemma PythonTableGrows(k: int, l: nat)
    requires l < ENTRIES
    ensures PythonTable(k)[..l] + [PythonKeyAfter(k, l + 1) % 0x1_0000] == PythonTable(k)[..l + 1]
  {
  }

  /** The table of gen_keystream. */
  method FillPython(origkey: int) returns (tab: seq<u16>)
    requires AnyKey(origkey)
    ensures tab == PythonTable(origkey)
  {
    tab := [];
    var key := origkey;
    for l := 0 to 260
      invariant key == PythonKeyAfter(origkey, l) && AnyKey(key) && tab == PythonTable(origkey)[..l]
    {
      KeyAfterValid(origkey, l + 1);
      PythonTableGrows(origkey, l);
      key := StepPython(key);
      tab := tab + [key % 0x1_0000];
    }
  }

  /** gen_keystream; None is its result for no encryption. */
  method GenKeystream(key: int) returns (tab: Option<seq<u16>>)
    requires -0x8000_0000 <= key < 0x1_0000_0000
    ensures tab == if key == 0 then None else Some(PythonTable(Signed(key)))
  {
    if key == 0 { return None; }
    var list := FillPython(Signed(key));
    return Some(list);
  }

  // ------------------------------------------------------ the two programs

  lemma {:induction false} SameKeysAfter(k: int, n: nat)
    requires n > 0 && KeyAfter(k, 1) == PythonKeyAfter(k, 1)
    ensures KeyAfter(k, n) == PythonKeyAfter(k, n)
    decreases n
  {
    if n > 1 {
      SameKeysAfter(k, n - 1);
      KeyAfterValid(k, n - 1);
    }
  }

  /** The server and the Python tools fill the same table exactly for the keys that are
      positive or not multiples of 127773. */
  lemma TablesAgreeIff(k: int)
    requires AnyKey(k)
    ensures Table(k) == PythonTable(k) <==> k > 0 || k % 127773 != 0
  {
    assert KeyAfter(k, 1) == NextKey(KeyAfter(k, 0)) && PythonKeyAfter(k, 1) == NextInPython(PythonKeyAfter(k, 0));
    if k > 0 || k % 127773 != 0 {
      forall i | 0 <= i < ENTRIES ensures Table(k)[i] == PythonTable(k)[i] {
        SameKeysAfter(k, i + 1);
      }
    } else {
      FirstKeysDiffer(k);
      assert Table(k)[0] == NextKey(k) % 0x1_0000 && PythonTable(k)[0] == NextInPython(k) % 0x1_0000;
    }
  }

  lemma FirstKeysDiffer(k: int)
    requires -0x8000_0000 <= k < 0 && k % 127773 == 0
    ensures NextInPython(k) == NextKey(k) + 2836 && NextInPython(k) % 0x1_0000 != NextKey(k) % 0x1_0000
  {
    StepFromNegative(k);
    RemainderOfNegative(k);
    Wraps(Target(k) + 2836, k / 127773, (-k / 127773 + 2) * 2836 + 123 + 2836);
  }
}
