/** The chained cipher of the VIE encryption: enc_vie.c works on 32-bit words in the
    packet's buffer and runs past its end, enc.py pads a copy. Both are byte streams in
    which byte i depends on the bytes up to i only. */
module Cipher {
  import opened Keystream
  import opened Words

  type Bytes = seq<bv8>

  // ------------------------------------------------------------------ words

  /** A 32-bit word as its four bytes in memory, the lowest first. */
  datatype Word = Word(b0: bv8, b1: bv8, b2: bv8, b3: bv8) {
    /** The int of a little-endian machine. */
    function Value(): bv32 {
      b0 as bv32 | ((b1 as bv32) << 8) | ((b2 as bv32) << 16) | ((b3 as bv32) << 24)
    }

    function Lane(j: nat): bv8
      requires j < 4
    {
      if j == 0 then b0 else if j == 1 then b1 else if j == 2 then b2 else b3
    }
  }

  function Xor(v: Word, w: Word): Word { Word(v.b0 ^ w.b0, v.b1 ^ w.b1, v.b2 ^ w.b2, v.b3 ^ w.b3) }

  /** Xor on bytes is xor on ints. */
  lemma XorIsXor(v: Word, w: Word)
    ensures Xor(v, w).Value() == v.Value() ^ w.Value()
  {
  }

  /** An int in memory, in two's complement. */
  function WordOf(k: int): Word
    requires -0x8000_0000 <= k < 0x8000_0000
  {
    Word((k % 256) as bv8, (k / 0x100 % 256) as bv8, (k / 0x1_0000 % 256) as bv8, (k / 0x100_0000 % 256) as bv8)
  }

  /** An int lies in memory as its value modulo 2^32. */
  lemma WordIs(k: int)
    requires -0x8000_0000 <= k < 0x8000_0000
    ensures var w := WordOf(k);
            w.b0 as int + 256 * (w.b1 as int) + 65536 * (w.b2 as int) + 16777216 * (w.b3 as int)
            == if k < 0 then k + 4294967296 else k
  {
    var w := WordOf(k);
    BytesHold(k, w);
    BytesAddUp(k);
    TopByte(k);
  }

  lemma BytesHold(k: int, w: Word)
    requires -0x8000_0000 <= k < 0x8000_0000 && w == WordOf(k)
    ensures w.b0 as int == k % 256 && w.b1 as int == k / 0x100 % 256
    ensures w.b2 as int == k / 0x1_0000 % 256 && w.b3 as int == k / 0x100_0000 % 256
  {
    ByteHolds(k % 256);
    ByteHolds(k / 0x100 % 256);
    ByteHolds(k / 0x1_0000 % 256);
    ByteHolds(k / 0x100_0000 % 256);
  }

  lemma TopByte(k: int)
    requires -0x8000_0000 <= k < 0x8000_0000
    ensures k / 0x100_0000 % 256 == k / 0x100_0000 + if k < 0 then 256 else 0
  {
    assert -128 <= k / 0x100_0000 < 128;
  }

  const ZERO := Word(0, 0, 0, 0)

  lemma OnlyZeroIsZero(k: int)
    requires -0x8000_0000 <= k < 0x8000_0000
    ensures WordOf(k) == ZERO <==> k == 0
  {
    if WordOf(k) == ZERO {
      assert k % 256 == 0 && k / 0x100 % 256 == 0 && k / 0x1_0000 % 256 == 0 && k / 0x100_0000 % 256 == 0;
      BytesAddUp(k);
    }
  }

  lemma BytesAddUp(k: int)
    ensures k == k % 256 + 256 * (k / 0x100 % 256) + 0x1_0000 * (k / 0x1_0000 % 256) + 0x100_0000 * (k / 0x100_0000)
  {
    var k1, k2, k3 := k / 0x100, k / 0x1_0000, k / 0x100_0000;
    assert k1 == 256 * (k1 / 256) + k1 % 256 && k1 / 256 == k2;
    assert k2 == 256 * (k2 / 256) + k2 % 256 && k2 / 256 == k3;
  }

  // ------------------------------------------------------------ byte streams

  /** What a connection keeps: the key and the table as it lies in memory. */
  datatype Key = Key(work: Word, table: Bytes)

  const TABLE_BYTES: nat := 520

  predicate ValidTable(table: Bytes) { |table| == TABLE_BYTES }

  function LowByte(v: u16): bv8 { (v % 256) as bv8 }

  function HighByte(v: u16): bv8 { (v / 256) as bv8 }

  /** The table of shorts as it lies in memory. */
  function TableBytes(table: seq<u16>): (b: Bytes)
    requires |table| == ENTRIES
    ensures ValidTable(b)
  {
    seq(TABLE_BYTES, i requires 0 <= i < TABLE_BYTES =>
      if i % 2 == 0 then LowByte(table[i / 2]) else HighByte(table[i / 2]))
  }

  /** The shorts of the table lie in memory with the low byte first. */
  lemma TableHolds(table: seq<u16>, i: nat)
    requires |table| == ENTRIES && i < 260
    ensures |TableBytes(table)| == 520
    ensures (TableBytes(table)[2 * i] as int) + 256 * (TableBytes(table)[2 * i + 1] as int) == table[i]
  {
    ByteHolds(table[i] % 256);
    ByteHolds(table[i] / 256);
  }

  function EncAt(p: Bytes, key: Key, i: nat): bv8
    requires i < |p| && i < TABLE_BYTES && ValidTable(key.table)
    decreases i, 1
  {
    p[i] ^ key.table[i] ^ EncBefore(p, key, i)
  }

  /** The encrypted byte four places earlier. */
  function EncBefore(p: Bytes, key: Key, i: nat): bv8
    requires i < |p| + 4 && i < TABLE_BYTES + 4 && ValidTable(key.table)
    decreases i, 0
  {
    if i < 4 then key.work.Lane(i) else EncAt(p, key, i - 4)
  }

  function DecAt(c: Bytes, key: Key, i: nat): bv8
    requires i < |c| && i < TABLE_BYTES && ValidTable(key.table)
  {
    key.table[i] ^ DecBefore(c, key, i) ^ c[i]
  }

  function DecBefore(c: Bytes, key: Key, i: nat): bv8
    requires i < |c| + 4
  {
    if i < 4 then key.work.Lane(i) else c[i - 4]
  }

  /** A buffer with the first n bytes encrypted. */
  function Encrypted(p: Bytes, key: Key, n: nat): (c: Bytes)
    requires n <= |p| && n <= TABLE_BYTES && ValidTable(key.table)
    ensures |c| == |p|
  {
    seq(|p|, i requires 0 <= i < |p| => if i < n then EncAt(p, key, i) else p[i])
  }

  function Decrypted(c: Bytes, key: Key, n: nat): (p: Bytes)
    requires n <= |c| && n <= TABLE_BYTES && ValidTable(key.table)
    ensures |p| == |c|
  {
    seq(|c|, i requires 0 <= i < |c| => if i < n then DecAt(c, key, i) else c[i])
  }

  /** Byte i depends on the bytes up to i only. */
  lemma {:induction false} EncPrefix(p: Bytes, q: Bytes, key: Key, i: nat)
    requires i < |p| && i < |q| && i < TABLE_BYTES && ValidTable(key.table) && p[..i + 1] == q[..i + 1]
    ensures EncAt(p, key, i) == EncAt(q, key, i)
    decreases i
  {
    assert p[i] == p[..i + 1][i] && q[i] == q[..i + 1][i];
    if i >= 4 {
      assert p[..i - 3] == p[..i + 1][..i - 3] && q[..i - 3] == q[..i + 1][..i - 3];
      EncPrefix(p, q, key, i - 4);
    }
  }

  lemma Cancels(p: bv8, t: bv8, w: bv8)
    ensures t ^ w ^ (p ^ t ^ w) == p
  {
  }

  /** Decrypting the first len bytes of what was encrypted gives them back, whatever
      follows them in either buffer and however far either side runs on. */
  lemma DecryptsBack(p: Bytes, c: Bytes, key: Key, n: nat, m: nat, len: nat)
    requires ValidTable(key.table) && len <= n <= |p| && n <= TABLE_BYTES && len <= m <= |c| && m <= TABLE_BYTES
    requires c[..len] == Encrypted(p, key, n)[..len]
    ensures Decrypted(c, key, m)[..len] == p[..len]
  {
    forall i | 0 <= i < len ensures Decrypted(c, key, m)[i] == p[i] {
      assert c[i] == c[..len][i] == EncAt(p, key, i);
      if i >= 4 { assert c[i - 4] == c[..len][i - 4] == EncAt(p, key, i - 4); }
      Cancels(p[i], key.table[i], EncBefore(p, key, i));
    }
  }

  // ----------------------------------------------------------------- packets

  /** One type byte, or two if the first is zero. */
  function Offset(first: bv8): nat { if first == 0 then 2 else 1 }

  /** How many words do_enc goes through; C rounds (len - offset) / 4 towards zero. */
  function WordCount(len: nat, offset: nat): nat { (if len < offset then 0 else (len - offset) / 4) + 1 }

  /** The buffer do_enc and do_dec need for a packet: they may run on past its end. */
  predicate Fits(data: Bytes, len: nat) {
    && 1 <= len <= |data|
    && Offset(data[0]) + 4 * WordCount(len, Offset(data[0])) <= |data|
    && WordCount(len, Offset(data[0])) <= 130
  }

  /** do_enc on a buffer. */
  function EncryptC(data: Bytes, len: nat, key: Key): Bytes
    requires Fits(data, len) && ValidTable(key.table)
  {
    var o := Offset(data[0]);
    if key.work == ZERO then data else data[..o] + Encrypted(data[o..], key, 4 * WordCount(len, o))
  }

  /** do_dec on a buffer. */
  function DecryptC(data: Bytes, len: nat, key: Key): Bytes
    requires Fits(data, len) && ValidTable(key.table)
  {
    var o := Offset(data[0]);
    if key.work == ZERO then data else data[..o] + Decrypted(data[o..], key, 4 * WordCount(len, o))
  }

  function Padding(n: nat): Bytes { seq((4 - n % 4) % 4, _ => 0) }

  function TypeBytes(pkt: Bytes): nat
    requires pkt != []
  {
    if Offset(pkt[0]) <= |pkt| then Offset(pkt[0]) else |pkt|
  }

  function Padded(pkt: Bytes): Bytes
    requires pkt != []
  {
    pkt[TypeBytes(pkt)..] + Padding(|pkt| - TypeBytes(pkt))
  }

  /** What enc.py's table can take. */
  predicate FitsPython(pkt: Bytes) { pkt != [] && |Padded(pkt)| <= TABLE_BYTES }

  /** EncState.encrypt once the key is known. */
  function EncryptPython(pkt: Bytes, key: Key): Bytes
    requires FitsPython(pkt) && ValidTable(key.table)
  {
    if key.work == ZERO then pkt
    else (pkt[..TypeBytes(pkt)] + Encrypted(Padded(pkt), key, |Padded(pkt)|))[..|pkt|]
  }

  function DecryptPython(pkt: Bytes, key: Key): Bytes
    requires FitsPython(pkt) && ValidTable(key.table)
  {
    if key.work == ZERO then pkt
    else (pkt[..TypeBytes(pkt)] + Decrypted(Padded(pkt), key, |Padded(pkt)|))[..|pkt|]
  }

  lemma SameMiddle(a: Bytes, b: Bytes, from: nat, to: nat)
    requires from <= to <= |a| && to <= |b| && a[..to] == b[..to]
    ensures a[from..][..to - from] == b[from..][..to - from]
  {
    assert a[from..][..to - from] == a[..to][from..] && b[from..][..to - from] == b[..to][from..];
  }

  lemma SentPayload(data: Bytes, len: nat, key: Key)
    requires Fits(data, len) && ValidTable(key.table) && key.work != ZERO
    ensures var o := Offset(data[0]); EncryptC(data, len, key)[o..] == Encrypted(data[o..], key, 4 * WordCount(len, o))
  {
  }

  /** The part of a packet that is encrypted. */
  lemma PayloadRoundTrip(data: Bytes, received: Bytes, len: nat, key: Key)
    requires Fits(data, len) && ValidTable(key.table) && len <= |received| && key.work != ZERO
    requires received[..len] == EncryptC(data, len, key)[..len]
    requires var o := Offset(data[0]); o < len && o + 4 * WordCount(len, o) <= |received|
    ensures var o := Offset(data[0]);
            Decrypted(received[o..], key, 4 * WordCount(len, o))[..len - o] == data[o..][..len - o]
  {
    var o, sent := Offset(data[0]), EncryptC(data, len, key);
    var n := 4 * WordCount(len, o);
    SentPayload(data, len, key);
    SameMiddle(received, sent, o, len);
    DecryptsBack(data[o..], received[o..], key, n, n, len - o);
  }

  /** What is not: the type bytes, or all of it. */
  lemma TypeBytesStay(data: Bytes, received: Bytes, len: nat, key: Key, n: nat)
    requires Fits(data, len) && ValidTable(key.table) && len <= |received| && n <= len && n <= Offset(data[0])
    requires received[..len] == EncryptC(data, len, key)[..len]
    ensures received[..n] == data[..n]
  {
    var sent := EncryptC(data, len, key);
    assert received[..n] == received[..len][..n] == sent[..len][..n] == sent[..n];
  }

  /** do_dec after do_enc restores the first len bytes of the packet, for every length,
      key and table, whatever is in the slack of the receiver's buffer. */
  lemma PacketRoundTrip(data: Bytes, received: Bytes, len: nat, key: Key)
    requires Fits(data, len) && ValidTable(key.table) && len <= |received|
    requires received[..len] == EncryptC(data, len, key)[..len]
    requires Offset(data[0]) + 4 * WordCount(len, Offset(data[0])) <= |received|
    ensures Fits(received, len)
    ensures DecryptC(received, len, key)[..len] == data[..len]
  {
    var o := Offset(data[0]);
    TypeBytesStay(data, received, len, key, 1);
    assert received[0] == received[..1][0] == data[..1][0];
    if key.work != ZERO && o < len {
      PayloadRoundTrip(data, received, len, key);
      TypeBytesStay(data, received, len, key, o);
      assert data[..len] == data[..o] + data[o..][..len - o];
    } else if key.work != ZERO {
      TypeBytesStay(data, received, len, key, len);
    }
  }

  lemma SameEncrypted(p: Bytes, q: Bytes, key: Key, n: nat, m: nat, len: nat)
    requires ValidTable(key.table) && len <= n <= |p| && n <= TABLE_BYTES && len <= m <= |q| && m <= TABLE_BYTES
    requires p[..len] == q[..len]
    ensures Encrypted(p, key, n)[..len] == Encrypted(q, key, m)[..len]
  {
    forall i | 0 <= i < len ensures EncAt(p, key, i) == EncAt(q, key, i) {
      assert p[..i + 1] == p[..len][..i + 1] && q[..i + 1] == q[..len][..i + 1];
      EncPrefix(p, q, key, i);
    }
  }

  lemma SameDecrypted(p: Bytes, q: Bytes, key: Key, n: nat, m: nat, len: nat)
    requires ValidTable(key.table) && len <= n <= |p| && n <= TABLE_BYTES && len <= m <= |q| && m <= TABLE_BYTES
    requires p[..len] == q[..len]
    ensures Decrypted(p, key, n)[..len] == Decrypted(q, key, m)[..len]
  {
    forall i | 0 <= i < len ensures DecAt(p, key, i) == DecAt(q, key, i) {
      assert p[i] == p[..len][i] && q[i] == q[..len][i];
      assert i >= 4 ==> p[i - 4] == p[..len][i - 4] && q[i - 4] == q[..len][i - 4];
    }
  }

  /** Where the payloads of a packet in the two programs agree. */
  lemma PayloadsAgree(data: Bytes, len: nat)
    requires Fits(data, len)
    ensures var o, pkt := Offset(data[0]), data[..len];
            && (o < len ==> TypeBytes(pkt) == o && len - o <= |Padded(pkt)|
                            && Padded(pkt)[..len - o] == data[o..][..len - o])
            && (o >= len ==> TypeBytes(pkt) == len)
            && pkt[..TypeBytes(pkt)] == data[..TypeBytes(pkt)]
  {
    var o, pkt := Offset(data[0]), data[..len];
    if o < len {
      assert Padded(pkt)[..len - o] == pkt[o..];
    }
  }

  /** The two programs produce the same len bytes, although one runs past the end of its
      buffer and the other pads with zeros. */
  lemma EncryptionsAgree(data: Bytes, len: nat, key: Key)
    requires Fits(data, len) && ValidTable(key.table) && FitsPython(data[..len])
    ensures EncryptPython(data[..len], key) == EncryptC(data, len, key)[..len]
  {
    if key.work != ZERO {
      if Offset(data[0]) < len { EncryptedPayload(data, len, key); } else { EncryptedTypes(data, len, key); }
    }
  }

  lemma EncryptedPayload(data: Bytes, len: nat, key: Key)
    requires Fits(data, len) && ValidTable(key.table) && FitsPython(data[..len])
    requires key.work != ZERO && Offset(data[0]) < len
    ensures EncryptPython(data[..len], key) == EncryptC(data, len, key)[..len]
  {
    var o, pkt := Offset(data[0]), data[..len];
    PayloadsAgree(data, len);
    var c, e := Encrypted(data[o..], key, 4 * WordCount(len, o)), Encrypted(Padded(pkt), key, |Padded(pkt)|);
    SameEncrypted(Padded(pkt), data[o..], key, |Padded(pkt)|, 4 * WordCount(len, o), len - o);
    assert EncryptPython(pkt, key) == (pkt[..o] + e)[..len] && EncryptC(data, len, key) == data[..o] + c;
    Joins(pkt[..o], e, data[..o], c, len);
  }

  lemma EncryptedTypes(data: Bytes, len: nat, key: Key)
    requires Fits(data, len) && ValidTable(key.table) && FitsPython(data[..len])
    requires key.work != ZERO && Offset(data[0]) >= len
    ensures EncryptPython(data[..len], key) == EncryptC(data, len, key)[..len]
  {
    var o, pkt := Offset(data[0]), data[..len];
    PayloadsAgree(data, len);
    var c, e := Encrypted(data[o..], key, 4 * WordCount(len, o)), Encrypted(Padded(pkt), key, |Padded(pkt)|);
    assert EncryptPython(pkt, key) == (pkt[..len] + e)[..len] && EncryptC(data, len, key) == data[..o] + c;
    TypeBytesOnly(pkt, e, data[..o], c, len);
  }

  lemma DecryptionsAgree(data: Bytes, len: nat, key: Key)
    requires Fits(data, len) && ValidTable(key.table) && FitsPython(data[..len])
    ensures DecryptPython(data[..len], key) == DecryptC(data, len, key)[..len]
  {
    if key.work != ZERO {
      if Offset(data[0]) < len { DecryptedPayload(data, len, key); } else { DecryptedTypes(data, len, key); }
    }
  }

  lemma DecryptedPayload(data: Bytes, len: nat, key: Key)
    requires Fits(data, len) && ValidTable(key.table) && FitsPython(data[..len])
    requires key.work != ZERO && Offset(data[0]) < len
    ensures DecryptPython(data[..len], key) == DecryptC(data, len, key)[..len]
  {
    var o, pkt := Offset(data[0]), data[..len];
    PayloadsAgree(data, len);
    var c, e := Decrypted(data[o..], key, 4 * WordCount(len, o)), Decrypted(Padded(pkt), key, |Padded(pkt)|);
    SameDecrypted(Padded(pkt), data[o..], key, |Padded(pkt)|, 4 * WordCount(len, o), len - o);
    assert DecryptPython(pkt, key) == (pkt[..o] + e)[..len] && DecryptC(data, len, key) == data[..o] + c;
    Joins(pkt[..o], e, data[..o], c, len);
  }

  lemma DecryptedTypes(data: Bytes, len: nat, key: Key)
    requires Fits(data, len) && ValidTable(key.table) && FitsPython(data[..len])
    requires key.work != ZERO && Offset(data[0]) >= len
    ensures DecryptPython(data[..len], key) == DecryptC(data, len, key)[..len]
  {
    var o, pkt := Offset(data[0]), data[..len];
    PayloadsAgree(data, len);
    var c, e := Decrypted(data[o..], key, 4 * WordCount(len, o)), Decrypted(Padded(pkt), key, |Padded(pkt)|);
    assert DecryptPython(pkt, key) == (pkt[..len] + e)[..len] && DecryptC(data, len, key) == data[..o] + c;
    TypeBytesOnly(pkt, e, data[..o], c, len);
  }

  lemma TypeBytesOnly(a: Bytes, b: Bytes, c: Bytes, d: Bytes, len: nat)
    requires |a| == len <= |c| && a == c[..len]
    ensures (a[..len] + b)[..len] == (c + d)[..len]
  {
  }

  lemma Joins(a: Bytes, b: Bytes, c: Bytes, d: Bytes, len: nat)
    requires a == c && |a| <= len <= |a| + |b| && len <= |c| + |d| && b[..len - |a|] == d[..len - |a|]
    ensures (a + b)[..len] == (c + d)[..len]
  {
    assert (a + b)[..len] == a + b[..len - |a|];
    assert (c + d)[..len] == c + d[..len - |c|];
  }

  /** The buffer net.c encrypts in is four bytes longer than the longest packet, which is
      room enough. */
  lemma SendBufferFits(data: Bytes, len: nat)
    requires |data| == 512 + 4 && 1 <= len <= 512
    ensures Fits(data, len)
  {
    var o := Offset(data[0]);
    assert len >= o ==> 4 * ((len - o) / 4) <= len - o;
  }

  // ----------------------------------------------------------- byte by byte

  lemma EncryptedAt(p: Bytes, key: Key, n: nat, i: nat)
    requires n <= |p| && n <= TABLE_BYTES && ValidTable(key.table) && i < n
    ensures Encrypted(p, key, n)[i] == EncAt(p, key, i)
  {
  }

  lemma EarlyByte(p: Bytes, key: Key, i: nat)
    requires i < |p| && i < 4 && ValidTable(key.table)
    ensures EncAt(p, key, i) == p[i] ^ key.table[i] ^ key.work.Lane(i)
  {
  }

  lemma LaterByte(p: Bytes, key: Key, i: nat, before: bv8)
    requires 4 <= i < |p| && i < TABLE_BYTES && ValidTable(key.table) && before == EncAt(p, key, i - 4)
    ensures EncAt(p, key, i) == p[i] ^ key.table[i] ^ before
  {
  }

  /** An encrypted byte is the byte, the byte of the table and the encrypted byte four
      places before, or a byte of the key for the first four, all xored. */
  lemma EncryptedByte(p: Bytes, key: Key, n: nat, i: nat)
    requires n <= |p| && n <= TABLE_BYTES && ValidTable(key.table) && i < n
    ensures i < 4 ==> Encrypted(p, key, n)[i] == p[i] ^ key.table[i] ^ key.work.Lane(i)
    ensures i >= 4 ==> Encrypted(p, key, n)[i] == p[i] ^ key.table[i] ^ Encrypted(p, key, n)[i - 4]
  {
    EncryptedAt(p, key, n, i);
    if i < 4 {
      EarlyByte(p, key, i);
    } else {
      EncryptedAt(p, key, n, i - 4);
      LaterByte(p, key, i, Encrypted(p, key, n)[i - 4]);
    }
  }

  /** Where the part of a packet begins that is encrypted. */
  function PayloadAt(data: Bytes): nat
    requires data != []
  {
    if data[0] == 0 then 2 else 1
  }

  lemma BufferByte(data: Bytes, len: nat, key: Key, i: nat)
    requires Fits(data, len) && ValidTable(key.table) && i < |data|
    ensures var c, o := EncryptC(data, len, key), Offset(data[0]);
            |c| == |data| && c[i] == if key.work == ZERO || i < o then data[i]
                                     else Encrypted(data[o..], key, 4 * WordCount(len, o))[i - o]
  {
  }

  /** Whether do_enc goes through byte i: not the type bytes, and up to the end of the word
      the packet ends in. */
  predicate Reached(data: Bytes, len: nat, i: nat)
    requires data != []
  {
    var o := PayloadAt(data);
    o <= i && if len < o then i < o + 4 else i < o + (len - o) / 4 * 4 + 4
  }

  /** What do_enc leaves as it is: everything with a key of zero, the type byte, or both if
      the first is zero, and what follows the word the packet ends in. */
  lemma EncryptKeeps(data: Bytes, len: nat, key: Key, i: nat)
    requires Fits(data, len) && ValidTable(key.table) && i < |data|
    requires key.work == ZERO || !Reached(data, len, i)
    ensures |EncryptC(data, len, key)| == |data| && EncryptC(data, len, key)[i] == data[i]
  {
    BufferByte(data, len, key, i);
  }

  /** Where it encrypts. */
  lemma EncryptReaches(data: Bytes, len: nat, key: Key, i: nat) returns (e: Bytes)
    requires Fits(data, len) && ValidTable(key.table) && i < |data|
    requires key.work != ZERO && Reached(data, len, i)
    ensures var o := PayloadAt(data);
            && e == Encrypted(data[o..], key, 4 * WordCount(len, o)) && i - o < 4 * WordCount(len, o)
            && |EncryptC(data, len, key)| == |data| && |e| == |data| - o
            && EncryptC(data, len, key)[i] == e[i - o] && (i >= o + 4 ==> EncryptC(data, len, key)[i - 4] == e[i - o - 4])
  {
    var o := Offset(data[0]);
    e := Encrypted(data[o..], key, 4 * WordCount(len, o));
    BufferByte(data, len, key, i);
    if i >= o + 4 { BufferByte(data, len, key, i - 4); }
  }

  /** And what it makes of the rest. */
  lemma EncryptXors(data: Bytes, len: nat, key: Key, i: nat)
    requires Fits(data, len) && ValidTable(key.table) && i < |data|
    requires key.work != ZERO && Reached(data, len, i)
    ensures var c, o := EncryptC(data, len, key), PayloadAt(data);
            && |c| == |data| && i - o < 520
            && c[i] == data[i] ^ key.table[i - o] ^ (if i < o + 4 then key.work.Lane(i - o) else c[i - 4])
  {
    var o := PayloadAt(data);
    var e := EncryptReaches(data, len, key, i);
    EncryptedByte(data[o..], key, 4 * WordCount(len, o), i - o);
    assert data[o..][i - o] == data[i];
  }

  // ---------------------------------------------------------------- in place

  function WordAt(s: Bytes, i: nat): Word
    requires i + 4 <= |s|
  {
    Word(s[i], s[i + 1], s[i + 2], s[i + 3])
  }

  /** The running word of do_enc is the encrypted word before. */
  function ChainedWord(p: Bytes, key: Key, loop: nat): Word
    requires 4 * loop <= |p| && loop <= 130 && ValidTable(key.table)
  {
    var i := 4 * loop;
    Word(EncBefore(p, key, i), EncBefore(p, key, i + 1), EncBefore(p, key, i + 2), EncBefore(p, key, i + 3))
  }

  lemma EncNext(p: Bytes, key: Key, i: nat)
    requires i < |p| && i < TABLE_BYTES && ValidTable(key.table)
    ensures EncBefore(p, key, i + 4) == p[i] ^ (key.table[i] ^ EncBefore(p, key, i))
  {
    Regroup(p[i], key.table[i], EncBefore(p, key, i));
  }

  lemma Regroup(a: bv8, b: bv8, c: bv8)
    ensures a ^ (b ^ c) == a ^ b ^ c
  {
  }

  /** One turn of do_enc's loop. */
  lemma WordEncrypts(p: Bytes, key: Key, loop: nat)
    requires ValidTable(key.table) && loop < 130 && 4 * loop + 4 <= |p|
    ensures Xor(WordAt(p, 4 * loop), Xor(WordAt(key.table, 4 * loop), ChainedWord(p, key, loop)))
            == ChainedWord(p, key, loop + 1)
  {
    var i := 4 * loop;
    EncNext(p, key, i);
    EncNext(p, key, i + 1);
    EncNext(p, key, i + 2);
    EncNext(p, key, i + 3);
  }

  /** The running word of do_dec is the received word before. */
  function ReceivedWord(c: Bytes, key: Key, loop: nat): Word
    requires 4 * loop <= |c|
  {
    var i := 4 * loop;
    Word(DecBefore(c, key, i), DecBefore(c, key, i + 1), DecBefore(c, key, i + 2), DecBefore(c, key, i + 3))
  }

  function DecryptedWord(c: Bytes, key: Key, loop: nat): Word
    requires ValidTable(key.table) && loop < 130 && 4 * loop + 4 <= |c|
  {
    var i := 4 * loop;
    Word(DecAt(c, key, i), DecAt(c, key, i + 1), DecAt(c, key, i + 2), DecAt(c, key, i + 3))
  }

  /** One turn of do_dec's loop. */
  lemma WordDecrypts(c: Bytes, key: Key, loop: nat)
    requires ValidTable(key.table) && loop < 130 && 4 * loop + 4 <= |c|
    ensures Xor(Xor(WordAt(key.table, 4 * loop), ReceivedWord(c, key, loop)), WordAt(c, 4 * loop))
            == DecryptedWord(c, key, loop)
    ensures WordAt(c, 4 * loop) == ReceivedWord(c, key, loop + 1)
  {
  }

  method ReadWord(data: array<bv8>, i: nat) returns (w: Word)
    requires i + 4 <= data.Length
    ensures w == WordAt(data[..], i)
  {
    w := Word(data[i], data[i + 1], data[i + 2], data[i + 3]);
  }

  function Written(s: Bytes, i: nat, w: Word): Bytes
    requires i + 4 <= |s|
  {
    s[..i] + [w.b0, w.b1, w.b2, w.b3] + s[i + 4..]
  }

  method WriteWord(data: array<bv8>, i: nat, w: Word)
    requires i + 4 <= data.Length
    modifies data
    ensures data[..] == Written(old(data[..]), i, w)
  {
    data[i], data[i + 1], data[i + 2], data[i + 3] := w.b0, w.b1, w.b2, w.b3;
    assert data[..] == Written(old(data[..]), i, w);
  }

  predicate Room(s: Bytes, o: nat, key: Key, loop: nat) {
    o + 4 * loop <= |s| && loop <= 130 && ValidTable(key.table)
  }

  /** The buffer when some words have been encrypted. */
  function EncryptedWords(s: Bytes, o: nat, key: Key, loop: nat): Bytes
    requires Room(s, o, key, loop)
  {
    s[..o] + Encrypted(s[o..], key, 4 * loop)
  }

  function DecryptedWords(s: Bytes, o: nat, key: Key, loop: nat): Bytes
    requires Room(s, o, key, loop)
  {
    s[..o] + Decrypted(s[o..], key, 4 * loop)
  }

  lemma OneMoreEncrypted(s: Bytes, o: nat, key: Key, loop: nat)
    requires Room(s, o, key, loop + 1)
    ensures WordAt(EncryptedWords(s, o, key, loop), o + 4 * loop) == WordAt(s[o..], 4 * loop)
    ensures Written(EncryptedWords(s, o, key, loop), o + 4 * loop, ChainedWord(s[o..], key, loop + 1))
            == EncryptedWords(s, o, key, loop + 1)
  {
    WrittenOver(s[..o], Encrypted(s[o..], key, 4 * loop), 4 * loop, ChainedWord(s[o..], key, loop + 1));
    EncryptedMore(s[o..], key, 4 * loop, ChainedWord(s[o..], key, loop + 1));
  }

  lemma EncryptedMore(p: Bytes, key: Key, i: nat, w: Word)
    requires ValidTable(key.table) && i + 4 <= |p| && i + 4 <= TABLE_BYTES
    requires w.b0 == EncAt(p, key, i) && w.b1 == EncAt(p, key, i + 1)
    requires w.b2 == EncAt(p, key, i + 2) && w.b3 == EncAt(p, key, i + 3)
    ensures Written(Encrypted(p, key, i), i, w) == Encrypted(p, key, i + 4)
    ensures WordAt(Encrypted(p, key, i), i) == WordAt(p, i)
  {
    var c, c' := Encrypted(p, key, i), Encrypted(p, key, i + 4);
    forall j | 0 <= j < |p| ensures Written(c, i, w)[j] == c'[j] {
      WrittenAt(c, i, w, j);
    }
  }

  lemma WrittenAt(s: Bytes, i: nat, w: Word, j: nat)
    requires i + 4 <= |s| && j < |s|
    ensures |Written(s, i, w)| == |s|
    ensures Written(s, i, w)[j] == if i <= j < i + 4 then w.Lane(j - i) else s[j]
  {
  }

  /** One turn of do_enc's loop, on the whole buffer. */
  lemma EncryptTurn(s: Bytes, o: nat, key: Key, loop: nat)
    requires Room(s, o, key, loop + 1)
    ensures var was := EncryptedWords(s, o, key, loop);
            var w := Xor(WordAt(was, o + 4 * loop), Xor(WordAt(key.table, 4 * loop), ChainedWord(s[o..], key, loop)));
            && w == ChainedWord(s[o..], key, loop + 1)
            && Written(was, o + 4 * loop, w) == EncryptedWords(s, o, key, loop + 1)
  {
    OneMoreEncrypted(s, o, key, loop);
    WordEncrypts(s[o..], key, loop);
  }

  lemma OneMoreDecrypted(s: Bytes, o: nat, key: Key, loop: nat, w: Word)
    requires Room(s, o, key, loop + 1) && w == DecryptedWord(s[o..], key, loop)
    ensures WordAt(DecryptedWords(s, o, key, loop), o + 4 * loop) == WordAt(s[o..], 4 * loop)
    ensures Written(DecryptedWords(s, o, key, loop), o + 4 * loop, w) == DecryptedWords(s, o, key, loop + 1)
  {
    DecryptedMore(s[o..], key, 4 * loop, w);
    Replaced(s[..o], Decrypted(s[o..], key, 4 * loop), Decrypted(s[o..], key, 4 * loop + 4), s[o..], 4 * loop, w);
  }

  lemma Replaced(a: Bytes, b: Bytes, b': Bytes, c: Bytes, i: nat, w: Word)
    requires i + 4 <= |b| == |c| && Written(b, i, w) == b' && WordAt(b, i) == WordAt(c, i)
    ensures Written(a + b, |a| + i, w) == a + b' && WordAt(a + b, |a| + i) == WordAt(c, i)
  {
    WrittenOver(a, b, i, w);
  }

  lemma DecryptTurn(s: Bytes, o: nat, key: Key, loop: nat)
    requires Room(s, o, key, loop + 1)
    ensures var was := DecryptedWords(s, o, key, loop);
            var tmp := WordAt(was, o + 4 * loop);
            var w := Xor(Xor(WordAt(key.table, 4 * loop), ReceivedWord(s[o..], key, loop)), tmp);
            && tmp == ReceivedWord(s[o..], key, loop + 1)
            && Written(was, o + 4 * loop, w) == DecryptedWords(s, o, key, loop + 1)
  {
    OneMoreDecrypted(s, o, key, loop, DecryptedWord(s[o..], key, loop));
    WordDecrypts(s[o..], key, loop);
  }

  lemma DecryptedMore(c: Bytes, key: Key, i: nat, w: Word)
    requires ValidTable(key.table) && i + 4 <= |c| && i + 4 <= TABLE_BYTES
    requires w.b0 == DecAt(c, key, i) && w.b1 == DecAt(c, key, i + 1)
    requires w.b2 == DecAt(c, key, i + 2) && w.b3 == DecAt(c, key, i + 3)
    ensures Written(Decrypted(c, key, i), i, w) == Decrypted(c, key, i + 4)
    ensures WordAt(Decrypted(c, key, i), i) == WordAt(c, i)
  {
    var p, p' := Decrypted(c, key, i), Decrypted(c, key, i + 4);
    forall j | 0 <= j < |c| ensures Written(p, i, w)[j] == p'[j] {
      WrittenAt(p, i, w, j);
    }
  }

  lemma NothingEncrypted(s: Bytes, o: nat, key: Key)
    requires Room(s, o, key, 0)
    ensures EncryptedWords(s, o, key, 0) == s && ChainedWord(s[o..], key, 0) == key.work
  {
  }

  lemma NothingDecrypted(s: Bytes, o: nat, key: Key)
    requires Room(s, o, key, 0)
    ensures DecryptedWords(s, o, key, 0) == s && ReceivedWord(s[o..], key, 0) == key.work
  {
  }

  lemma WrittenOver(a: Bytes, b: Bytes, i: nat, w: Word)
    requires i + 4 <= |b|
    ensures Written(a + b, |a| + i, w) == a + Written(b, i, w)
    ensures WordAt(a + b, |a| + i) == WordAt(b, i)
  {
    assert (a + b)[..|a| + i] == a + b[..i];
    assert (a + b)[|a| + i + 4..] == b[i + 4..];
  }

  lemma TableBytesAt(table: seq<u16>, i: nat)
    requires |table| == ENTRIES && i < ENTRIES
    ensures TableBytes(table)[2 * i] == LowByte(table[i]) && TableBytes(table)[2 * i + 1] == HighByte(table[i])
  {
    assert (2 * i) % 2 == 0 && (2 * i) / 2 == i && (2 * i + 1) % 2 == 1 && (2 * i + 1) / 2 == i;
  }

  lemma ShortsOf(k: int, i: nat)
    requires i < ENTRIES
    ensures TableBytes(Table(k))[2 * i] == LowByte(KeyAfter(k, i + 1) % 0x1_0000)
    ensures TableBytes(Table(k))[2 * i + 1] == HighByte(KeyAfter(k, i + 1) % 0x1_0000)
  {
    TableBytesAt(Table(k), i);
  }

  /** do_enc and do_dec are their loops behind the type bytes. */
  lemma LoopIsWhole(data: Bytes, len: nat, key: Key)
    requires Fits(data, len) && ValidTable(key.table) && key.work != ZERO
    ensures var o := Offset(data[0]);
            && Room(data, o, key, WordCount(len, o))
            && EncryptC(data, len, key) == EncryptedWords(data, o, key, WordCount(len, o))
            && DecryptC(data, len, key) == DecryptedWords(data, o, key, WordCount(len, o))
  {
  }

  /** The state of a connection: enc_vie.c's EncData. */
  class EncData {
    var key: Word
    const table: array<bv8>

    constructor ()
      ensures fresh(table) && table.Length == TABLE_BYTES && key == ZERO
    {
      key := ZERO;
      table := new bv8[TABLE_BYTES](_ => 0);
    }

    ghost function State(): Key
      reads this, table
    {
      Key(key, table[..])
    }

    /** One turn of do_init's loop: a short is stored through a cast of the table. */
    method StoreShort(i: nat, k: int32)
      requires table.Length == TABLE_BYTES && i < ENTRIES
      modifies table
      ensures table[2 * i] == LowByte(k as int % 0x1_0000) && table[2 * i + 1] == HighByte(k as int % 0x1_0000)
      ensures forall j | 0 <= j < TABLE_BYTES && j != 2 * i && j != 2 * i + 1 :: table[j] == old(table[j])
    {
      var v: u16 := k as int % 0x1_0000;
      table[2 * i], table[2 * i + 1] := LowByte(v), HighByte(v);
    }

    /** One turn of do_init's loop. */
    method FillEntry(k: int32, i: nat, ghost k0: int) returns (k': int32)
      requires table.Length == TABLE_BYTES && i < ENTRIES && k0 != 0 && k as int == KeyAfter(k0, i)
      modifies table
      ensures k' as int == KeyAfter(k0, i + 1)
      ensures forall j | 2 * i <= j < 2 * i + 2 :: table[j] == TableBytes(Table(k0))[j]
      ensures forall j | 0 <= j < TABLE_BYTES && !(2 * i <= j < 2 * i + 2) :: table[j] == old(table[j])
    {
      KeyAfterValid(k0, i);
      ShortsOf(k0, i);
      k' := StepC(k);
      StoreShort(i, k');
    }

    /** do_init's loop. */
    method FillTable(k0: int32)
      requires table.Length == TABLE_BYTES && k0 != 0
      modifies table
      ensures table[..] == TableBytes(Table(k0 as int))
    {
      var k := k0;
      for i := 0 to 0x104
        invariant k as int == KeyAfter(k0 as int, i)
        invariant forall j | 0 <= j < 2 * i :: table[j] == TableBytes(Table(k0 as int))[j]
      {
        k := FillEntry(k, i, k0 as int);
      }
    }

    /** do_init: for the key zero, which means no encryption, the table is left alone. */
    method Init(k: int32)
      requires table.Length == TABLE_BYTES
      modifies this, table
      ensures key == WordOf(k as int) && (key == ZERO <==> k == 0)
      ensures table[..] == if k == 0 then old(table[..]) else TableBytes(Table(k as int))
    {
      key := WordOf(k as int);
      OnlyZeroIsZero(k as int);
      if k != 0 { FillTable(k); }
    }

    /** mytable[loop] */
    method TableAt(loop: nat) returns (w: Word)
      requires table.Length == TABLE_BYTES && loop < 130
      ensures w == WordAt(table[..], 4 * loop)
    {
      w := ReadWord(table, 4 * loop);
    }

    method EncryptWord(data: array<bv8>, i: nat, loop: nat, work: Word) returns (work': Word)
      requires table.Length == TABLE_BYTES && data != table && loop < 130 && i + 4 <= data.Length
      modifies data
      ensures work' == Xor(WordAt(old(data[..]), i), Xor(WordAt(table[..], 4 * loop), work))
      ensures data[..] == Written(old(data[..]), i, work')
    {
      var w := ReadWord(data, i);
      var t := TableAt(loop);
      work' := Xor(w, Xor(t, work));
      WriteWord(data, i, work');
    }

    /** One turn of the loop of do_enc. */
    method EncryptTurnAt(data: array<bv8>, o: nat, loop: nat, work: Word, ghost was: Bytes, ghost k: Key)
      returns (work': Word)
      requires table.Length == TABLE_BYTES && data != table && Room(was, o, k, loop + 1) && State() == k
      requires data[..] == EncryptedWords(was, o, k, loop) && work == ChainedWord(was[o..], k, loop)
      modifies data
      ensures data[..] == EncryptedWords(was, o, k, loop + 1) && work' == ChainedWord(was[o..], k, loop + 1)
    {
      EncryptTurn(was, o, k, loop);
      work' := EncryptWord(data, o + 4 * loop, loop, work);
    }

    /** do_enc's loop. */
    method EncryptWords(data: array<bv8>, o: nat, until: nat)
      requires table.Length == TABLE_BYTES && data != table && Room(data[..], o, State(), until)
      modifies data
      ensures data[..] == EncryptedWords(old(data[..]), o, State(), until)
    {
      ghost var was, k := data[..], State();
      var work := key;
      NothingEncrypted(was, o, k);
      for loop := 0 to until
        invariant State() == k && data[..] == EncryptedWords(was, o, k, loop)
        invariant work == ChainedWord(was[o..], k, loop)
      {
        work := EncryptTurnAt(data, o, loop, work, was, k);
      }
    }

    /** do_enc. */
    method Encrypt(data: array<bv8>, len: nat)
      requires table.Length == TABLE_BYTES && data != table && Fits(data[..], len)
      modifies data
      ensures data[..] == EncryptC(old(data[..]), len, State())
    {
      if key == ZERO { return; }
      ghost var was := data[..];
      LoopIsWhole(was, len, State());
      var o := if data[0] == 0 then 2 else 1;
      var until := (if len < o then 0 else (len - o) / 4) + 1;
      assert o == Offset(was[0]) && until == WordCount(len, o);
      EncryptWords(data, o, until);
    }

    method DecryptWord(data: array<bv8>, i: nat, loop: nat, work: Word) returns (work': Word)
      requires table.Length == TABLE_BYTES && data != table && loop < 130 && i + 4 <= data.Length
      modifies data
      ensures work' == WordAt(old(data[..]), i)
      ensures data[..] == Written(old(data[..]), i, Xor(Xor(WordAt(table[..], 4 * loop), work), work'))
    {
      var tmp := ReadWord(data, i);
      var t := TableAt(loop);
      WriteWord(data, i, Xor(Xor(t, work), tmp));
      work' := tmp;
    }

    /** One turn of the loop of do_dec. */
    method DecryptTurnAt(data: array<bv8>, o: nat, loop: nat, work: Word, ghost was: Bytes, ghost k: Key)
      returns (work': Word)
      requires table.Length == TABLE_BYTES && data != table && Room(was, o, k, loop + 1) && State() == k
      requires data[..] == DecryptedWords(was, o, k, loop) && work == ReceivedWord(was[o..], k, loop)
      modifies data
      ensures data[..] == DecryptedWords(was, o, k, loop + 1) && work' == ReceivedWord(was[o..], k, loop + 1)
    {
      DecryptTurn(was, o, k, loop);
      ghost var before := data[..];
      work' := DecryptWord(data, o + 4 * loop, loop, work);
      assert work' == WordAt(before, o + 4 * loop);
      assert data[..] == Written(before, o + 4 * loop, Xor(Xor(WordAt(k.table, 4 * loop), work), work'));
    }

    /** do_dec's loop. */
    method DecryptWords(data: array<bv8>, o: nat, until: nat)
      requires table.Length == TABLE_BYTES && data != table && Room(data[..], o, State(), until)
      modifies data
      ensures data[..] == DecryptedWords(old(data[..]), o, State(), until)
    {
      ghost var was, k := data[..], State();
      ghost var payload := was[o..];
      var work := key;
      NothingDecrypted(was, o, k);
      for loop := 0 to until
        invariant State() == k && |payload| == |was| - o
        invariant data[..] == DecryptedWords(was, o, k, loop)
        invariant work == ReceivedWord(payload, k, loop)
      {
        work := DecryptTurnAt(data, o, loop, work, was, k);
      }
    }

    /** do_dec. */
    method Decrypt(data: array<bv8>, len: nat)
      requires table.Length == TABLE_BYTES && data != table && Fits(data[..], len)
      modifies data
      ensures data[..] == DecryptC(old(data[..]), len, State())
    {
      if key == ZERO { return; }
      ghost var was := data[..];
      LoopIsWhole(was, len, State());
      var o := if data[0] == 0 then 2 else 1;
      var until := (if len < o then 0 else (len - o) / 4) + 1;
      assert o == Offset(was[0]) && until == WordCount(len, o);
      DecryptWords(data, o, until);
    }
  }

  // ------------------------------------------------------------------ enc.py

  method CopyOf(s: Bytes) returns (arr: array<bv8>)
    ensures fresh(arr) && arr[..] == s
  {
    arr := new bv8[|s|](i requires 0 <= i < |s| => s[i]);
    assert arr[..] == s;
  }

  lemma WholeArray(s: Bytes, key: Key)
    requires |s| <= TABLE_BYTES && |s| % 4 == 0 && ValidTable(key.table)
    ensures Room(s, 0, key, |s| / 4)
    ensures EncryptedWords(s, 0, key, |s| / 4) == Encrypted(s, key, |s|)
    ensures DecryptedWords(s, 0, key, |s| / 4) == Decrypted(s, key, |s|)
  {
    assert s[0..] == s && s[..0] == [];
  }

  /** enc_work. */
  method EncWork(key: Key, arr: array<bv8>)
    requires ValidTable(key.table) && arr.Length <= TABLE_BYTES && arr.Length % 4 == 0
    modifies arr
    ensures arr[..] == Encrypted(old(arr[..]), key, arr.Length)
  {
    ghost var was := arr[..];
    var work := key.work;
    WholeArray(was, key);
    NothingEncrypted(was, 0, key);
    for i := 0 to arr.Length / 4
      invariant arr[..] == EncryptedWords(was, 0, key, i)
      invariant work == ChainedWord(was[0..], key, i)
    {
      work := EncTurn(arr, i, key, work, was);
    }
  }

  /** One turn of enc_work's loop. */
  method EncTurn(arr: array<bv8>, i: nat, key: Key, work: Word, ghost was: Bytes) returns (work': Word)
    requires ValidTable(key.table) && arr.Length <= TABLE_BYTES && 4 * i + 4 <= arr.Length == |was|
    requires arr[..] == EncryptedWords(was, 0, key, i) && work == ChainedWord(was[0..], key, i)
    modifies arr
    ensures arr[..] == EncryptedWords(was, 0, key, i + 1) && work' == ChainedWord(was[0..], key, i + 1)
  {
    ghost var before := arr[..];
    EncryptTurn(was, 0, key, i);
    var w := ReadWord(arr, 4 * i);
    work' := Xor(w, Xor(WordAt(key.table, 4 * i), work));
    WriteWord(arr, 4 * i, work');
    assert arr[..] == Written(before, 4 * i, work');
  }

  /** dec_work. */
  method DecWork(key: Key, arr: array<bv8>)
    requires ValidTable(key.table) && arr.Length <= TABLE_BYTES && arr.Length % 4 == 0
    modifies arr
    ensures arr[..] == Decrypted(old(arr[..]), key, arr.Length)
  {
    ghost var was := arr[..];
    ghost var payload := was[0..];
    var work := key.work;
    WholeArray(was, key);
    NothingDecrypted(was, 0, key);
    for i := 0 to arr.Length / 4
      invariant |payload| == |was| && arr[..] == DecryptedWords(was, 0, key, i)
      invariant work == ReceivedWord(payload, key, i)
    {
      work := DecTurn(arr, i, key, work, was);
    }
  }

  /** One turn of dec_work's loop. */
  method DecTurn(arr: array<bv8>, i: nat, key: Key, work: Word, ghost was: Bytes) returns (work': Word)
    requires ValidTable(key.table) && arr.Length <= TABLE_BYTES && 4 * i + 4 <= arr.Length == |was|
    requires arr[..] == DecryptedWords(was, 0, key, i) && work == ReceivedWord(was[0..], key, i)
    modifies arr
    ensures arr[..] == DecryptedWords(was, 0, key, i + 1) && work' == ReceivedWord(was[0..], key, i + 1)
  {
    ghost var before := arr[..];
    DecryptTurn(was, 0, key, i);
    var tmp := ReadWord(arr, 4 * i);
    WriteWord(arr, 4 * i, Xor(Xor(WordAt(key.table, 4 * i), work), tmp));
    assert arr[..] == Written(before, 4 * i, Xor(Xor(WordAt(key.table, 4 * i), work), tmp));
    work' := tmp;
  }

  /** do_stuff with enc_work. */
  method DoEncrypt(key: Key, pkt: Bytes) returns (out: Bytes)
    requires FitsPython(pkt) && ValidTable(key.table)
    ensures out == EncryptPython(pkt, key)
  {
    if key.work == ZERO { return pkt; }
    var arr := CopyOf(Padded(pkt));
    EncWork(key, arr);
    out := (pkt[..TypeBytes(pkt)] + arr[..])[..|pkt|];
  }

  /** do_stuff with dec_work. */
  method DoDecrypt(key: Key, pkt: Bytes) returns (out: Bytes)
    requires FitsPython(pkt) && ValidTable(key.table)
    ensures out == DecryptPython(pkt, key)
  {
    if key.work == ZERO { return pkt; }
    var arr := CopyOf(Padded(pkt));
    DecWork(key, arr);
    out := (pkt[..TypeBytes(pkt)] + arr[..])[..|pkt|];
  }
}
