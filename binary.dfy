// PietDotNet.IO.Binary: the internal binary format of a program. The
// width and the height come first, each as a little-endian `int`; the
// codels follow column by column, eleven to a group of six bytes, each codel
// a base-20 digit (its colour's index), the first codel of a group the most
// significant digit. 20^11 < 2^48, so a group always fits in six bytes.
module Binary {
  import opened Exceptions
  import opened CSharp
  import Colours
  import Programs
  import Jagged

  newtype Byte = b: int | 0 <= b < 0x100

  // ----- Numbers and their little-endian bytes -----

  function Pow20(k: nat): (p: nat)
    ensures p > 0
  {
    if k == 0 then 1 else 20 * Pow20(k - 1)
  }

  function Pow256(k: nat): (p: nat)
    ensures p > 0
  {
    if k == 0 then 1 else 256 * Pow256(k - 1)
  }

  /** The byte counts the format uses, as numbers. */
  lemma BytePowers()
    ensures Pow256(2) == 0x1_0000 && Pow256(4) == 0x1_0000_0000
  {
    assert Pow256(1) == 0x100;
    assert Pow256(2) == 0x1_0000;
    assert Pow256(3) == 0x100_0000;
  }

  /** Eleven base-20 digits fit in the 48 bits of a group (20^11 is about 2^47.5). */
  lemma ElevenDigitsFit()
    ensures Pow20(11) < 0x1_0000_0000_0000
  {
    assert Pow20(2) == 400;
    assert Pow20(4) == 160_000 by { assert Pow20(3) == 8_000; }
    assert Pow20(6) == 64_000_000 by { assert Pow20(5) == 3_200_000; }
    assert Pow20(8) == 25_600_000_000 by { assert Pow20(7) == 1_280_000_000; }
    assert Pow20(10) == 10_240_000_000_000 by { assert Pow20(9) == 512_000_000_000; }
  }

  /** The lowest `count` bytes of `n`, least significant first: what `BinaryWriter` writes. */
  function LittleEndian(n: nat, count: nat): (bytes: seq<Byte>)
    ensures |bytes| == count
  {
    seq(count, k requires 0 <= k < count => (n / Pow256(k) % 256) as Byte)
  }

  /** The number little-endian bytes stand for: what `BinaryReader` reads. */
  function Value(bytes: seq<Byte>): nat
  {
    if bytes == [] then 0 else bytes[0] as nat + 256 * Value(bytes[1..])
  }

  /** `n` bytes stand for a number below 256^n. */
  lemma {:induction false} ValueBound(bytes: seq<Byte>)
    ensures Value(bytes) < Pow256(|bytes|)
  {
    if bytes != [] {
      ValueBound(bytes[1..]);
    }
  }

  /** The first byte written is the lowest; the others are those of the rest of the number. */
  lemma LittleEndianSplit(n: nat, count: nat)
    requires count > 0
    ensures LittleEndian(n, count)[0] as nat == n % 256
    ensures LittleEndian(n, count)[1..] == LittleEndian(n / 256, count - 1)
  {
    var bytes := LittleEndian(n, count);
    forall k | 0 <= k < count - 1
      ensures bytes[1..][k] == LittleEndian(n / 256, count - 1)[k]
    {
      DivideTwice(n, 256, Pow256(k));
    }
  }

  /** Reading back `count` written bytes gives the number modulo 256^count. */
  lemma {:induction false} ValueOfLittleEndian(n: nat, count: nat)
    ensures Value(LittleEndian(n, count)) == n % Pow256(count)
  {
    if count > 0 {
      LittleEndianSplit(n, count);
      ValueOfLittleEndian(n / 256, count - 1);
      SplitModulus(n, Pow256(count - 1));
    }
  }

  /** A number below 256^count is read back unchanged. */
  lemma ValueOfSmall(n: nat, count: nat)
    requires n < Pow256(count)
    ensures Value(LittleEndian(n, count)) == n
  {
    ValueOfLittleEndian(n, count);
    RemainderUnique(n, Pow256(count), 0, n);
  }

  /** The remainder modulo 256·m splits into the lowest byte and the rest modulo m. */
  lemma SplitModulus(n: nat, m: nat)
    requires m > 0
    ensures n % (256 * m) == n % 256 + 256 * ((n / 256) % m)
  {
    var q, r := n / 256, n % 256;
    var q2, r2 := q / m, q % m;
    assert q == m * q2 + r2;
    assert n == (256 * m) * q2 + (256 * r2 + r);
    RemainderUnique(n, 256 * m, q2, 256 * r2 + r);
  }

  /** Euclidean division has only one quotient. */
  lemma QuotientUnique(n: int, d: int, q: int, r: int)
    requires d > 0 && n == d * q + r && 0 <= r < d
    ensures n / d == q
  {
    RemainderUnique(n, d, q, r);
    var f := n / d;
    assert d * f == d * q;
    if f < q {
      ScaleMonotone(d, f + 1, q);
    } else if f > q {
      ScaleMonotone(d, q + 1, f);
    }
  }

  /** Dividing by `b` and then by `c` divides by `b·c`. */
  lemma DivideTwice(a: nat, b: nat, c: nat)
    requires b > 0 && c > 0
    ensures a / (b * c) == a / b / c
  {
    var q1, r1 := a / b, a % b;
    var q2, r2 := q1 / c, q1 % c;
    assert q1 == c * q2 + r2;
    assert a == (b * c) * q2 + (b * r2 + r1);
    ScaleMonotone(b, r2, c - 1);
    QuotientUnique(a, b * c, q2, b * r2 + r1);
  }

  // ----- Reading and writing integers -----

  /** `Write(int)`: the four bytes of the two's-complement value. */
  function Int32Bytes(x: Int32): (bytes: seq<Byte>)
    ensures |bytes| == 4
  {
    LittleEndian(Unsigned(x, Int), 4)
  }

  /** The `int` whose two's-complement bits are `u`. */
  function Signed(u: nat): (x: Int32)
    requires u < 0x1_0000_0000
  {
    if u <= MaxInt32 then u else u - 0x1_0000_0000
  }

  /** Reading the bits of an `int` as an `int` gives it back. */
  lemma SignedUnsigned(x: Int32)
    ensures Unsigned(x, Int) < 0x1_0000_0000 && Signed(Unsigned(x, Int)) == x
  {
    if x < 0 {
      RemainderUnique(x, 0x1_0000_0000, -1, x + 0x1_0000_0000);
    } else {
      RemainderUnique(x, 0x1_0000_0000, 0, x);
    }
  }

  /** `ReadUInt32` at `offset`; a stream that ends first throws EndOfStreamException. */
  function ReadUInt32(bytes: seq<Byte>, offset: nat): (r: Result<nat>)
    ensures r.Ok? <==> offset + 4 <= |bytes|
    ensures r.Err? ==> r.error == EndOfStream
    ensures r.Ok? ==> r.value < 0x1_0000_0000
  {
    if offset + 4 > |bytes| then Err(EndOfStream)
    else
      ValueBound(bytes[offset..offset + 4]);
      BytePowers();
      Ok(Value(bytes[offset..offset + 4]))
  }

  /** `ReadUInt16` at `offset`. */
  function ReadUInt16(bytes: seq<Byte>, offset: nat): (r: Result<nat>)
    ensures r.Ok? <==> offset + 2 <= |bytes|
    ensures r.Err? ==> r.error == EndOfStream
    ensures r.Ok? ==> r.value < 0x1_0000
  {
    if offset + 2 > |bytes| then Err(EndOfStream)
    else
      ValueBound(bytes[offset..offset + 2]);
      BytePowers();
      Ok(Value(bytes[offset..offset + 2]))
  }

  /** `ReadInt32` at `offset`: the four bytes read as two's complement. */
  function ReadInt32(bytes: seq<Byte>, offset: nat): (r: Result<Int32>)
    ensures r.Ok? <==> offset + 4 <= |bytes|
    ensures r.Err? ==> r.error == EndOfStream
  {
    var u :- ReadUInt32(bytes, offset);
    Ok(Signed(u))
  }

  /** An `int` written anywhere in a stream is read back from there. */
  lemma Int32RoundTrip(before: seq<Byte>, x: Int32, after: seq<Byte>)
    ensures ReadInt32(before + Int32Bytes(x) + after, |before|) == Ok(x)
  {
    var bytes := before + Int32Bytes(x) + after;
    assert bytes[|before|..|before| + 4] == Int32Bytes(x);
    SignedUnsigned(x);
    BytePowers();
    ValueOfSmall(Unsigned(x, Int), 4);
  }

  // ----- Groups of eleven codels -----

  /** The colours' indices, the base-20 digits the format stores. */
  function Indices(colours: seq<Colours.Colour>): (digits: seq<nat>)
    ensures |digits| == |colours|
  {
    if colours == [] then []
    else Indices(colours[..|colours| - 1]) + [Colours.Index(colours[|colours| - 1]) as nat]
  }

  /** Digit `i` is the index of colour `i`, so looking it up in `Colour.All` gives the colour back. */
  lemma {:induction false} IndexAt(colours: seq<Colours.Colour>, i: nat)
    requires i < |colours|
    ensures Indices(colours)[i] == Colours.Index(colours[i])
    ensures Indices(colours)[i] < 20 && Colours.All[Indices(colours)[i]] == colours[i]
  {
    if i < |colours| - 1 {
      IndexAt(colours[..|colours| - 1], i);
    }
  }

  /** Every index is a base-20 digit. */
  lemma IndicesAreDigits(colours: seq<Colours.Colour>)
    ensures Digits(Indices(colours))
  {
    forall i | 0 <= i < |colours|
      ensures Indices(colours)[i] < 20
    {
      IndexAt(colours, i);
    }
  }

  predicate Digits(digits: seq<nat>)
  {
    forall i :: 0 <= i < |digits| ==> digits[i] < 20
  }

  /** `buffer *= 20; buffer += digit` over the digits: the first digit ends up most significant. */
  function Packed(digits: seq<nat>): nat
  {
    if digits == [] then 0 else Packed(digits[..|digits| - 1]) * 20 + digits[|digits| - 1]
  }

  /** Appending a digit multiplies by 20 and adds it. */
  lemma PackedAppend(digits: seq<nat>, d: nat)
    ensures Packed(digits + [d]) == Packed(digits) * 20 + d
  {
    assert (digits + [d])[..|digits|] == digits;
  }

  /** `n` base-20 digits pack below 20^n. */
  lemma {:induction false} PackedBound(digits: seq<nat>)
    requires Digits(digits)
    ensures Packed(digits) < Pow20(|digits|)
  {
    if digits != [] {
      PackedBound(digits[..|digits| - 1]);
    }
  }

  /** Digit `k` of a packed value is the `k`-th of the digits, counted from the most significant. */
  lemma {:induction false} PackedDigit(digits: seq<nat>, k: nat)
    requires Digits(digits) && k < |digits|
    ensures Packed(digits) / Pow20(|digits| - 1 - k) % 20 == digits[k]
  {
    var front := digits[..|digits| - 1];
    var last := digits[|digits| - 1];
    var p := Packed(front);
    assert Packed(digits) == 20 * p + last;
    if k == |digits| - 1 {
      assert (20 * p + last) % 20 == last by {
        RemainderUnique(20 * p + last, 20, p, last);
      }
    } else {
      var m := Pow20(|front| - 1 - k);
      assert Pow20(|digits| - 1 - k) == 20 * m;
      DivideTwice(20 * p + last, 20, m);
      QuotientUnique(20 * p + last, 20, p, last);
      PackedDigit(front, k);
    }
  }

  /** `k` zero digits: the padding of a short last group. */
  function Zeros(k: nat): (z: seq<nat>)
    ensures |z| == k && forall i :: 0 <= i < k ==> z[i] == 0
  {
    seq(k, _ => 0)
  }

  /** The digits of a short group padded with zeros to eleven. */
  function Padding(digits: seq<nat>): (group: seq<nat>)
    requires |digits| <= 11
    ensures |group| == 11 && group[..|digits|] == digits
    ensures Digits(digits) ==> Digits(group)
  {
    digits + Zeros(11 - |digits|)
  }

  /** The packed values of the whole groups at the front of the digits; a short rest is not part of them. */
  function Groups(digits: seq<nat>): seq<nat>
    decreases |digits|
  {
    if |digits| < 11 then [] else [Packed(digits[..11])] + Groups(digits[11..])
  }

  /** `k` whole groups pack into `k` buffers. */
  lemma {:induction false} GroupsLength(digits: seq<nat>, k: nat)
    requires 11 * k <= |digits| < 11 * k + 11
    ensures |Groups(digits)| == k
  {
    if k > 0 {
      GroupsLength(digits[11..], k - 1);
    }
  }

  /** Buffer `g` packs digits `11·g` to `11·g + 10`. */
  lemma {:induction false} GroupAt(digits: seq<nat>, g: nat)
    requires 11 * g + 11 <= |digits|
    ensures g < |Groups(digits)| && Groups(digits)[g] == Packed(digits[11 * g..11 * g + 11])
  {
    var rest := digits[11..];
    assert Groups(digits) == [Packed(digits[..11])] + Groups(rest);
    if g > 0 {
      var at := 11 * g - 11;
      GroupAt(rest, g - 1);
      assert Groups(digits)[g] == Groups(rest)[g - 1];
      assert rest[at..at + 11] == digits[11 * g..11 * g + 11];
    }
  }

  /** A group appended to `k` whole groups adds its buffer at the end. */
  lemma {:induction false} GroupsAppend(digits: seq<nat>, group: seq<nat>, k: nat)
    requires |digits| == 11 * k && |group| == 11
    ensures Groups(digits + group) == Groups(digits) + [Packed(group)]
  {
    if k == 0 {
      assert digits + group == group && group[..11] == group && group[11..] == [];
    } else {
      var all := digits + group;
      assert all[..11] == digits[..11] && all[11..] == digits[11..] + group;
      GroupsAppend(digits[11..], group, k - 1);
    }
  }

  /** The whole groups of a sequence are those of its whole-group prefix. */
  lemma {:induction false} WholeGroupsOnly(digits: seq<nat>, k: nat)
    requires 11 * k <= |digits| < 11 * k + 11
    ensures Groups(digits) == Groups(digits[..11 * k])
  {
    if k > 0 {
      assert digits[..11 * k][..11] == digits[..11];
      assert digits[..11 * k][11..] == digits[11..][..11 * (k - 1)];
      WholeGroupsOnly(digits[11..], k - 1);
    }
  }

  /** The digits after the last whole group. */
  function Rest(digits: seq<nat>): (rest: seq<nat>)
    ensures |rest| < 11
  {
    digits[|digits| - |digits| % 11..]
  }

  /** After `k` whole groups the rest starts at `11·k`. */
  lemma RestAfter(digits: seq<nat>, k: nat)
    requires 11 * k <= |digits| < 11 * k + 11
    ensures Rest(digits) == digits[11 * k..]
  {
    RemainderUnique(|digits|, 11, k, |digits| - 11 * k);
  }

  /** The buffers of the format: the whole groups and then the padded rest, when there is one. */
  function EncodedGroups(digits: seq<nat>): seq<nat>
  {
    Groups(digits) + (if Rest(digits) != [] then [Packed(Padding(Rest(digits)))] else [])
  }

  /** There is a buffer for every started group of eleven. */
  lemma EncodedGroupsLength(digits: seq<nat>)
    ensures |EncodedGroups(digits)| == (|digits| + 10) / 11
  {
    var k := |digits| / 11;
    GroupsLength(digits, k);
    RestAfter(digits, k);
  }

  /**
   * The buffer of the group holding digit `p` packs eleven digits, digit
   * `p % 11` of which is digit `p`; the short last group is padded with zeros.
   */
  lemma EncodedGroupAt(digits: seq<nat>, p: nat) returns (group: seq<nat>)
    requires Digits(digits) && p < |digits|
    ensures |group| == 11 && Digits(group) && p / 11 < |EncodedGroups(digits)|
    ensures EncodedGroups(digits)[p / 11] == Packed(group) && group[p % 11] == digits[p]
  {
    var k := |digits| / 11;
    var g, j := p / 11, p % 11;
    GroupsLength(digits, k);
    if g < k {
      GroupAt(digits, g);
      group := digits[11 * g..11 * g + 11];
    } else {
      RestAfter(digits, k);
      assert g == k;
      group := Padding(Rest(digits));
      assert group[j] == Rest(digits)[j];
    }
  }

  // ----- Bytes of the groups -----

  /** `Write((uint)buffer)` and then `Write((ushort)(buffer >> 32))`. */
  function GroupBytes(buffer: nat): (bytes: seq<Byte>)
    ensures |bytes| == 6
  {
    LittleEndian(buffer % 0x1_0000_0000, 4) + LittleEndian(buffer / 0x1_0000_0000 % 0x1_0000, 2)
  }

  /** The groups' bytes one after the other. */
  function Serialized(buffers: seq<nat>): (bytes: seq<Byte>)
    ensures |bytes| == 6 * |buffers|
  {
    if buffers == [] then [] else GroupBytes(buffers[0]) + Serialized(buffers[1..])
  }

  lemma Associative(a: seq<Byte>, b: seq<Byte>, c: seq<Byte>)
    ensures a + b + c == a + (b + c)
  {
  }

  /** One more group adds its six bytes at the end. */
  lemma {:induction false} SerializedAppend(buffers: seq<nat>, buffer: nat)
    ensures Serialized(buffers + [buffer]) == Serialized(buffers) + GroupBytes(buffer)
  {
    if buffers == [] {
      assert buffers + [buffer] == [buffer];
    } else {
      assert (buffers + [buffer])[1..] == buffers[1..] + [buffer];
      SerializedAppend(buffers[1..], buffer);
      Associative(GroupBytes(buffers[0]), Serialized(buffers[1..]), GroupBytes(buffer));
    }
  }

  /** Group `g` sits at bytes `6·g` to `6·g + 5`. */
  lemma {:induction false} SerializedAt(buffers: seq<nat>, g: nat)
    requires g < |buffers|
    ensures Serialized(buffers)[6 * g..6 * g + 6] == GroupBytes(buffers[g])
  {
    if g > 0 {
      SerializedAt(buffers[1..], g - 1);
      assert Serialized(buffers)[6 * g..6 * g + 6] == Serialized(buffers[1..])[6 * (g - 1)..6 * (g - 1) + 6];
    }
  }

  /**
   * `big | (small << 32)` for a `uint` and a `ushort`: the bits of the two
   * parts do not overlap, so the or is a sum (`OrOfDisjointBits`).
   */
  function Joined(big: nat, small: nat): (buffer: nat)
    requires big < 0x1_0000_0000 && small < 0x1_0000
    ensures buffer < 0x1_0000_0000_0000
  {
    big + small * 0x1_0000_0000
  }

  /** The bits of a `uint` and of a `ushort` shifted past them do not overlap. */
  lemma OrOfDisjointBits(big: bv64, small: bv64)
    requires big < 0x1_0000_0000 && small < 0x1_0000
    ensures big | (small << 32) == big + (small << 32)
  {
  }

  /** A 48-bit buffer is its low 32 bits plus its high 16 bits shifted up. */
  lemma SplitBuffer(buffer: nat)
    requires buffer < 0x1_0000_0000_0000
    ensures buffer % 0x1_0000_0000 + buffer / 0x1_0000_0000 % 0x1_0000 * 0x1_0000_0000 == buffer
  {
    assert buffer / 0x1_0000_0000 < 0x1_0000;
  }

  /** The buffer read back from a group's bytes: `ReadUInt32` and `ReadUInt16` joined. */
  function ReadGroup(bytes: seq<Byte>, offset: nat): (r: Result<nat>)
    ensures r.Ok? <==> offset + 6 <= |bytes|
    ensures r.Err? ==> r.error == EndOfStream
  {
    var big :- ReadUInt32(bytes, offset);
    var small :- ReadUInt16(bytes, offset + 4);
    Ok(Joined(big, small))
  }

  /** A group written anywhere in a stream is read back from there. */
  lemma GroupRoundTrip(before: seq<Byte>, buffer: nat, after: seq<Byte>)
    requires buffer < 0x1_0000_0000_0000
    ensures ReadGroup(before + GroupBytes(buffer) + after, |before|) == Ok(buffer)
  {
    var low, high := buffer % 0x1_0000_0000, buffer / 0x1_0000_0000 % 0x1_0000;
    var bytes := before + GroupBytes(buffer) + after;
    var at := |before|;
    BytePowers();
    assert Value(bytes[at..at + 4]) == low by {
      assert bytes[at..at + 4] == LittleEndian(low, 4);
      ValueOfSmall(low, 4);
    }
    assert Value(bytes[at + 4..at + 6]) == high by {
      assert bytes[at + 4..at + 6] == LittleEndian(high, 2);
      ValueOfSmall(high, 2);
    }
    SplitBuffer(buffer);
  }

  // ----- Saving -----

  /** The width and height at the head of the stream. */
  function Header(width: Int32, height: Int32): (bytes: seq<Byte>)
    ensures |bytes| == 8
  {
    Int32Bytes(width) + Int32Bytes(height)
  }

  /** The state of `Save`'s loop: the buffers written so far, the open buffer and its codel count. */
  datatype Packing = Packing(buffers: seq<nat>, buffer: nat, size: nat)

  /** One codel: `buffer *= 20; buffer += codel.Index`, and at eleven codels the buffer is written and reset. */
  function Step(p: Packing, digit: nat): Packing
  {
    var buffer := p.buffer * 20 + digit;
    if p.size + 1 == 11 then Packing(p.buffers + [buffer], 0, 0) else Packing(p.buffers, buffer, p.size + 1)
  }

  /** The loop over the codels in enumeration order, one `Step` each. */
  function Run(colours: seq<Colours.Colour>): (p: Packing)
    ensures p.size < 11
  {
    if colours == [] then Packing([], 0, 0)
    else Step(Run(colours[..|colours| - 1]), Colours.Index(colours[|colours| - 1]) as nat)
  }

  /** `while (size++ < 11) buffer *= 20;` for `n` rounds. */
  function Shifted(buffer: nat, n: nat): nat
  {
    if n == 0 then buffer else 20 * Shifted(buffer, n - 1)
  }

  /** `if (buffer != 0)`: the last, short group is written only when its buffer is not zero. */
  function Closing(p: Packing): seq<nat>
    requires p.size < 11
  {
    if p.buffer != 0 then [Shifted(p.buffer, 11 - p.size)] else []
  }

  /**
   * `Save` as written: the header, then six bytes per group, one group for
   * each whole eleven codels and at most one more for the rest.
   */
  function SaveBytes(width: Int32, height: Int32, colours: seq<Colours.Colour>): (bytes: seq<Byte>)
    ensures |bytes| >= 8 && bytes[..8] == Header(width, height) && (|bytes| - 8) % 6 == 0
    ensures 8 + 6 * (|colours| / 11) <= |bytes| <= 8 + 6 * GroupCount(|colours|)
  {
    var p := Run(colours);
    var digits := Indices(colours);
    SavedGroups(colours);
    GroupsLength(digits, |colours| / 11);
    assert Packed(Rest(digits)) != 0 ==> |colours| % 11 != 0;
    Header(width, height) + Serialized(p.buffers + Closing(p))
  }

  /** The corrected format: every group is written, the last one padded when short. */
  function Encoded(width: Int32, height: Int32, colours: seq<Colours.Colour>): seq<Byte>
  {
    Header(width, height) + Serialized(EncodedGroups(Indices(colours)))
  }

  /** Writing a group after the header and the groups before it writes their sequence with it appended. */
  lemma WriteGroup(header: seq<Byte>, buffers: seq<nat>, buffer: nat)
    ensures header + Serialized(buffers) + GroupBytes(buffer) == header + Serialized(buffers + [buffer])
  {
    SerializedAppend(buffers, buffer);
    Associative(header, Serialized(buffers), GroupBytes(buffer));
  }

  /** `while (size++ < 11) buffer *= 20;`: the short group shifted up to eleven digits. */
  method Pad(buffer: nat, size: nat) returns (padded: nat)
    requires size < 11
    ensures padded == Shifted(buffer, 11 - size)
  {
    padded := buffer;
    var n := size;
    while n < 11
      invariant size <= n <= 11 && padded == Shifted(buffer, n - size)
    {
      padded := padded * 20;
      n := n + 1;
    }
  }

  /**
   * `program.Save(stream)`: the header, then the codels in enumeration order
   * packed eleven to a group, then the padded short group unless its buffer
   * is zero.
   */
  method Save(program: Programs.Program) returns (bytes: seq<Byte>)
    requires program.Shaped()
    ensures bytes == SaveBytes(program.Width, program.Height, Programs.Flatten(program.codels))
  {
    var colours := program.Enumerate();
    bytes := SaveCodels(Header(program.Width, program.Height), colours);
  }

  /** The body of `Save` on the enumerated codels. */
  method SaveCodels(header: seq<Byte>, colours: seq<Colours.Colour>) returns (bytes: seq<Byte>)
    ensures bytes == header + Serialized(Run(colours).buffers + Closing(Run(colours)))
  {
    bytes := header;
    var buffer: nat := 0;
    var size := 0;
    ghost var packing := Packing([], 0, 0);
    for i := 0 to |colours|
      invariant packing == Run(colours[..i]) && buffer == packing.buffer && size == packing.size
      invariant bytes == header + Serialized(packing.buffers)
    {
      assert colours[..i + 1][..i] == colours[..i];
      bytes, buffer, size := Push(header, bytes, buffer, size, colours[i], packing);
      packing := Step(packing, Colours.Index(colours[i]) as nat);
    }
    assert colours[..|colours|] == colours;
    bytes := Close(header, bytes, buffer, size, packing);
  }

  /** After the loop: `if (buffer != 0)`, the short group padded and written. */
  method Close(ghost header: seq<Byte>, bytes: seq<Byte>, buffer: nat, size: nat, ghost p: Packing)
    returns (bytes': seq<Byte>)
    requires bytes == header + Serialized(p.buffers) && buffer == p.buffer && size == p.size < 11
    ensures bytes' == header + Serialized(p.buffers + Closing(p))
  {
    bytes' := bytes;
    if buffer != 0 {
      var padded := Pad(buffer, size);
      WriteGroup(header, p.buffers, padded);
      bytes' := bytes' + GroupBytes(padded);
    } else {
      assert p.buffers + [] == p.buffers;
    }
  }

  /** The body of `Save`'s loop: one codel into the buffer, and a full buffer written. */
  method Push(ghost header: seq<Byte>, bytes: seq<Byte>, buffer: nat, size: nat, codel: Colours.Colour, ghost p: Packing)
    returns (bytes': seq<Byte>, buffer': nat, size': nat)
    requires bytes == header + Serialized(p.buffers) && buffer == p.buffer && size == p.size
    ensures var next := Step(p, Colours.Index(codel) as nat);
      bytes' == header + Serialized(next.buffers) && buffer' == next.buffer && size' == next.size
  {
    size' := size + 1;
    buffer' := buffer * 20 + Colours.Index(codel) as nat;
    bytes' := bytes;
    if size' == 11 {
      WriteGroup(header, p.buffers, buffer');
      bytes' := bytes' + GroupBytes(buffer');
      buffer' := 0;
      size' := 0;
    }
  }

  // ----- What Save writes, group by group -----

  /** Extending a packed group by one more zero digit multiplies it by 20. */
  lemma PadStep(digits: seq<nat>, n: nat)
    ensures Packed(digits + Zeros(n + 1)) == 20 * Packed(digits + Zeros(n))
  {
    assert digits + Zeros(n + 1) == (digits + Zeros(n)) + [0];
    PackedAppend(digits + Zeros(n), 0);
  }

  /** Shifting the open buffer `n` times appends `n` zero digits to it. */
  lemma {:induction false} ShiftedPads(digits: seq<nat>, n: nat)
    ensures Shifted(Packed(digits), n) == Packed(digits + Zeros(n))
  {
    if n == 0 {
      assert digits + Zeros(0) == digits;
    } else {
      ShiftedPads(digits, n - 1);
      PadStep(digits, n - 1);
    }
  }

  /** The loop's state after the codels of `k` whole groups and some more: those groups written, the rest packed. */
  ghost predicate PacksGroups(colours: seq<Colours.Colour>, k: nat)
    requires 11 * k <= |colours|
  {
    var digits := Indices(colours);
    Run(colours) == Packing(Groups(digits[..11 * k]), Packed(digits[11 * k..]), |colours| - 11 * k)
  }

  /**
   * After the codels of `k` whole groups and fewer than eleven more, `Save`
   * has written the whole groups and holds the rest, packed, in its buffer.
   */
  lemma {:induction false} RunPacksGroups(colours: seq<Colours.Colour>, k: nat)
    requires 11 * k <= |colours| < 11 * k + 11
    ensures PacksGroups(colours, k)
  {
    if colours != [] {
      var front := colours[..|colours| - 1];
      if |front| >= 11 * k {
        RunPacksGroups(front, k);
        PackOneMore(colours, k);
      } else {
        RunPacksGroups(front, k - 1);
        CloseOneGroup(colours, k);
      }
    }
  }

  /** A codel that does not complete a group is packed into the buffer. */
  lemma PackOneMore(colours: seq<Colours.Colour>, k: nat)
    requires 11 * k < |colours| < 11 * k + 11
    requires PacksGroups(colours[..|colours| - 1], k)
    ensures PacksGroups(colours, k)
  {
    var n := |colours|;
    var front := colours[..n - 1];
    var d := Colours.Index(colours[n - 1]) as nat;
    var digits := Indices(colours);
    var before := Indices(front);
    assert digits == before + [d];
    assert digits[..11 * k] == before[..11 * k];
    assert digits[11 * k..] == before[11 * k..] + [d];
    PackedAppend(before[11 * k..], d);
  }

  /** The codel that completes group `k` moves the packed group to the buffers. */
  lemma CloseOneGroup(colours: seq<Colours.Colour>, k: nat)
    requires 0 < k && |colours| == 11 * k
    requires PacksGroups(colours[..|colours| - 1], k - 1)
    ensures PacksGroups(colours, k)
  {
    var n := |colours|;
    var front := colours[..n - 1];
    var d := Colours.Index(colours[n - 1]) as nat;
    var digits := Indices(colours);
    var before := Indices(front);
    assert digits == before + [d];
    var start := 11 * k - 11;
    var last := digits[start..11 * k];
    assert digits[..start] == before[..start];
    assert last == before[start..] + [d];
    PackedAppend(before[start..], d);
    assert digits[..start] + last == digits[..11 * k];
    GroupsAppend(digits[..start], last, k - 1);
    assert digits[11 * k..] == [];
  }

  /**
   * The groups `Save` writes: the whole groups, then the padded rest when
   * its packed value is not zero. The format instead wants the padded rest
   * whenever the rest is not empty.
   */
  lemma SavedGroups(colours: seq<Colours.Colour>)
    ensures var p := Run(colours); var digits := Indices(colours);
      p.buffers + Closing(p) ==
      Groups(digits) + (if Packed(Rest(digits)) != 0 then [Packed(Padding(Rest(digits)))] else [])
  {
    var digits := Indices(colours);
    var k := |colours| / 11;
    RunPacksGroups(colours, k);
    WholeGroupsOnly(digits, k);
    RestAfter(digits, k);
    ShiftedPads(Rest(digits), 11 - |Rest(digits)|);
  }

  /** A packed value is zero exactly when every digit is zero. */
  lemma {:induction false} PackedZero(digits: seq<nat>)
    ensures Packed(digits) == 0 <==> forall i :: 0 <= i < |digits| ==> digits[i] == 0
  {
    if digits != [] {
      PackedZero(digits[..|digits| - 1]);
    }
  }

  /** A colour's index is zero exactly for black. */
  lemma BlackIsZero(colours: seq<Colours.Colour>, i: nat)
    requires i < |colours|
    ensures Indices(colours)[i] == 0 <==> colours[i] == Colours.Black
  {
    IndexAt(colours, i);
  }

  /** The codels after the last whole group. */
  function Tail(colours: seq<Colours.Colour>): (tail: seq<Colours.Colour>)
    ensures |tail| == |colours| % 11
  {
    colours[|colours| - |colours| % 11..]
  }

  /** The rest's digits are the indices of the tail's codels. */
  lemma RestOfIndices(colours: seq<Colours.Colour>)
    ensures var rest := Rest(Indices(colours));
      |rest| == |Tail(colours)| &&
      forall i :: 0 <= i < |rest| ==> (rest[i] == 0 <==> Tail(colours)[i] == Colours.Black)
  {
    var start := |colours| - |colours| % 11;
    forall i | 0 <= i < |colours| % 11
      ensures Rest(Indices(colours))[i] == 0 <==> Tail(colours)[i] == Colours.Black
    {
      BlackIsZero(colours, start + i);
    }
  }

  /** `Save` writes the format's bytes unless the codels after the last whole group are all black. */
  lemma SaveAgreesWithEncoded(width: Int32, height: Int32, colours: seq<Colours.Colour>)
    requires Tail(colours) == [] || exists i :: 0 <= i < |Tail(colours)| && Tail(colours)[i] != Colours.Black
    ensures SaveBytes(width, height, colours) == Encoded(width, height, colours)
  {
    var digits := Indices(colours);
    SavedGroups(colours);
    RestOfIndices(colours);
    PackedZero(Rest(digits));
  }

  /**
   * When the codels after the last whole group are all black (and there are
   * some), `Save` leaves their group out: its output is one group short.
   */
  lemma SaveDropsBlackTail(width: Int32, height: Int32, colours: seq<Colours.Colour>)
    requires Tail(colours) != [] && forall i :: 0 <= i < |Tail(colours)| ==> Tail(colours)[i] == Colours.Black
    ensures |SaveBytes(width, height, colours)| + 6 == |Encoded(width, height, colours)|
  {
    var digits := Indices(colours);
    SavedGroups(colours);
    RestOfIndices(colours);
    PackedZero(Rest(digits));
  }

  // ----- Loading -----

  /** The groups `width × height` codels take: one per started eleven. */
  function GroupCount(size: nat): (n: nat)
    ensures 11 * n >= size && (n == 0 || 11 * (n - 1) < size)
  {
    (size + 10) / 11
  }

  /**
   * The buffers of the first `count` groups, read one after the other after
   * the header (a group the stream does not hold has none; `Decode` never
   * gets that far).
   */
  function Buffers(bytes: seq<Byte>, count: nat): (buffers: seq<nat>)
    ensures |buffers| == count
  {
    seq(count, g requires 0 <= g < count =>
      match ReadGroup(bytes, 8 + 6 * g) case Ok(buffer) => buffer case Err(_) => 0)
  }

  /**
   * Codel `p` as stored: digit `p % 11`, from the most significant, of
   * buffer `p / 11` (`index = buffer % 20; buffer /= 20` from the last codel
   * of the group back to the first).
   */
  function Digit(buffers: seq<nat>, p: nat): (d: nat)
    ensures d < 20
  {
    if p / 11 < |buffers| then buffers[p / 11] / Pow20(10 - p % 11) % 20 else 0
  }

  /** The grid `Load` fills: column `x`, row `y` holds codel `x·height + y`. */
  function Grid(buffers: seq<nat>, width: nat, height: nat): (columns: seq<seq<Colours.Colour>>)
    ensures |columns| == width && Programs.Rectangular(columns, height)
  {
    seq(width, x requires 0 <= x < width =>
      seq(height, y requires 0 <= y < height => Colours.All[Digit(buffers, x * height + y)]))
  }

  /**
   * What `Load` makes of a stream: EndOfStream when the header or a group is
   * cut short, Overflow for dimensions `Jagged.Array` refuses, IndexOutOfRange
   * for a program without columns, and otherwise the grid of the stored
   * codels. The source multiplies `width * height` unchecked; a product
   * above `int.MaxValue` is taken here as Overflow, an array too large to
   * allocate, and the `int` wrap of the positions near that bound is not
   * modelled.
   */
  function Decode(bytes: seq<Byte>): (r: Result<seq<seq<Colours.Colour>>>)
    ensures r.Err? ==> r.error in {EndOfStream, Overflow, IndexOutOfRange}
    ensures r.Ok? ==> 0 < |r.value| <= MaxInt32 && |r.value[0]| <= MaxInt32
    ensures r.Ok? ==> Programs.Rectangular(r.value, |r.value[0]|) && |r.value| * |r.value[0]| <= MaxInt32
  {
    var width :- ReadInt32(bytes, 0);
    var height :- ReadInt32(bytes, 4);
    if width < 0 || (width > 0 && height < 0) then Err(Overflow)
    else if width > 0 && width * height > MaxInt32 then Err(Overflow)
    else
      var size: nat := if width == 0 then 0 else width * height;
      if |bytes| < 8 + 6 * GroupCount(size) then Err(EndOfStream)
      else if width == 0 then Err(IndexOutOfRange)
      else Ok(Grid(Buffers(bytes, GroupCount(size)), width, height))
  }

  /** Position `11·g + j` is digit `j` of group `g`. */
  lemma Position(g: nat, j: nat)
    requires j < 11
    ensures (11 * g + j) / 11 == g && (11 * g + j) % 11 == j
  {
    QuotientUnique(11 * g + j, 11, g, j);
    RemainderUnique(11 * g + j, 11, g, j);
  }

  /** A slice of the second part of a concatenation. */
  lemma SliceOfSecond(a: seq<Byte>, b: seq<Byte>, i: nat, j: nat)
    requires |a| <= i <= j <= |a| + |b|
    ensures (a + b)[i..j] == b[i - |a|..j - |a|]
  {
  }

  /** A stream cut around a slice is put back together by concatenation. */
  lemma Around(bytes: seq<Byte>, i: nat, j: nat)
    requires i <= j <= |bytes|
    ensures bytes == bytes[..i] + bytes[i..j] + bytes[j..]
  {
  }

  /** Group `g` of the serialized buffers is read back from after the header. */
  lemma ReadSerialized(header: seq<Byte>, buffers: seq<nat>, g: nat)
    requires |header| == 8 && g < |buffers| && buffers[g] < 0x1_0000_0000_0000
    ensures ReadGroup(header + Serialized(buffers), 8 + 6 * g) == Ok(buffers[g])
  {
    var at := 8 + 6 * g;
    SerializedAt(buffers, g);
    SliceOfSecond(header, Serialized(buffers), at, at + 6);
    ReadGroupAt(header + Serialized(buffers), at, buffers[g]);
  }

  /** A group's bytes anywhere in a stream are read back as its buffer. */
  lemma ReadGroupAt(bytes: seq<Byte>, at: nat, buffer: nat)
    requires at + 6 <= |bytes| && bytes[at..at + 6] == GroupBytes(buffer) && buffer < 0x1_0000_0000_0000
    ensures ReadGroup(bytes, at) == Ok(buffer)
  {
    Around(bytes, at, at + 6);
    GroupRoundTrip(bytes[..at], buffer, bytes[at + 6..]);
  }

  /** Buffers that read back group by group are the buffers of the stream. */
  lemma BuffersAre(bytes: seq<Byte>, buffers: seq<nat>)
    requires 8 + 6 * |buffers| <= |bytes|
    requires forall g :: 0 <= g < |buffers| ==> ReadGroup(bytes, 8 + 6 * g) == Ok(buffers[g])
    ensures Buffers(bytes, |buffers|) == buffers
  {
  }

  /** The buffers read back from serialized groups are the buffers written. */
  lemma BuffersOfSerialized(header: seq<Byte>, buffers: seq<nat>)
    requires |header| == 8 && forall g :: 0 <= g < |buffers| ==> buffers[g] < 0x1_0000_0000_0000
    ensures Buffers(header + Serialized(buffers), |buffers|) == buffers
  {
    forall g | 0 <= g < |buffers|
      ensures ReadGroup(header + Serialized(buffers), 8 + 6 * g) == Ok(buffers[g])
    {
      ReadSerialized(header, buffers, g);
    }
    BuffersAre(header + Serialized(buffers), buffers);
  }

  /** Every buffer of the format fits in the six bytes of its group. */
  lemma EncodedGroupsFit(digits: seq<nat>)
    requires Digits(digits)
    ensures forall g :: 0 <= g < |EncodedGroups(digits)| ==> EncodedGroups(digits)[g] < 0x1_0000_0000_0000
  {
    EncodedGroupsLength(digits);
    forall g | 0 <= g < |EncodedGroups(digits)|
      ensures EncodedGroups(digits)[g] < 0x1_0000_0000_0000
    {
      var group := EncodedGroupAt(digits, 11 * g);
      Position(g, 0);
      PackedBound(group);
      ElevenDigitsFit();
    }
  }

  /** Every digit the format stores is unpacked from its buffer. */
  lemma DigitOfEncoded(digits: seq<nat>, p: nat)
    requires Digits(digits) && p < |digits|
    ensures Digit(EncodedGroups(digits), p) == digits[p]
  {
    var group := EncodedGroupAt(digits, p);
    PackedDigit(group, p % 11);
  }

  /** The header written is read back: width at offset 0, height at offset 4. */
  lemma HeaderRoundTrip(width: Int32, height: Int32, body: seq<Byte>)
    ensures ReadInt32(Header(width, height) + body, 0) == Ok(width)
    ensures ReadInt32(Header(width, height) + body, 4) == Ok(height)
  {
    var bytes := Header(width, height) + body;
    assert bytes == [] + Int32Bytes(width) + (Int32Bytes(height) + body);
    Int32RoundTrip([], width, Int32Bytes(height) + body);
    assert bytes == Int32Bytes(width) + Int32Bytes(height) + body;
    Int32RoundTrip(Int32Bytes(width), height, body);
  }

  /** Each codel is unpacked from the format's buffers at its position. */
  lemma CodelOfEncoded(colours: seq<Colours.Colour>, p: nat)
    requires p < |colours|
    ensures Colours.All[Digit(EncodedGroups(Indices(colours)), p)] == colours[p]
  {
    IndicesAreDigits(colours);
    DigitOfEncoded(Indices(colours), p);
    IndexAt(colours, p);
  }

  /** Codel `(x, y)` of the grid is the stored codel `x·height + y`. */
  lemma GridAt(buffers: seq<nat>, width: nat, height: nat, x: nat, y: nat, p: nat)
    requires x < width && y < height && p == x * height + y
    ensures Grid(buffers, width, height)[x][y] == Colours.All[Digit(buffers, p)]
  {
  }

  /** Codel `(x, y)` of a program is its codel `x·height + y` in enumeration order. */
  lemma FlattenCell(columns: seq<seq<Colours.Colour>>, height: nat, x: nat, y: nat) returns (p: nat)
    requires Programs.Rectangular(columns, height) && x < |columns| && y < height
    ensures p == x * height + y && p < |Programs.Flatten(columns)| && Programs.Flatten(columns)[p] == columns[x][y]
  {
    Programs.FlattenAt(columns, height);
    Programs.IndexBefore(x, y, |columns|, height);
    p := x * height + y;
  }

  /** Two grids of the same shape with the same codels are the same. */
  lemma SameGrid(a: seq<seq<Colours.Colour>>, b: seq<seq<Colours.Colour>>, height: nat)
    requires |a| == |b| && Programs.Rectangular(a, height) && Programs.Rectangular(b, height)
    requires forall x, y :: 0 <= x < |a| && 0 <= y < height ==> a[x][y] == b[x][y]
    ensures a == b
  {
    forall x | 0 <= x < |a|
      ensures a[x] == b[x]
    {
    }
  }

  /** The grid unpacked from the format's buffers is the program's. */
  lemma GridOfEncoded(columns: seq<seq<Colours.Colour>>, height: nat)
    requires Programs.Rectangular(columns, height)
    ensures Grid(EncodedGroups(Indices(Programs.Flatten(columns))), |columns|, height) == columns
  {
    var colours := Programs.Flatten(columns);
    var buffers := EncodedGroups(Indices(colours));
    var grid := Grid(buffers, |columns|, height);
    forall x, y | 0 <= x < |columns| && 0 <= y < height
      ensures grid[x][y] == columns[x][y]
    {
      var p := FlattenCell(columns, height, x, y);
      GridAt(buffers, |columns|, height, x, y, p);
      CodelOfEncoded(colours, p);
    }
    SameGrid(grid, columns, height);
  }

  /** A stream with a sound header and enough groups decodes to the grid its buffers hold. */
  lemma DecodeGrid(bytes: seq<Byte>, width: Int32, height: Int32)
    requires ReadInt32(bytes, 0) == Ok(width) && ReadInt32(bytes, 4) == Ok(height)
    requires 0 < width && 0 <= height && width * height <= MaxInt32
    requires 8 + 6 * GroupCount(width * height) <= |bytes|
    ensures Decode(bytes) == Ok(Grid(Buffers(bytes, GroupCount(width * height)), width, height))
  {
  }

  /**
   * Loading what the format holds for a program gives the program back:
   * every codel, column by column, with its width and height.
   */
  lemma LoadEncoded(columns: seq<seq<Colours.Colour>>, height: nat)
    requires 0 < |columns| <= MaxInt32 && height <= MaxInt32 && |columns| * height <= MaxInt32
    requires Programs.Rectangular(columns, height)
    ensures Decode(Encoded(|columns|, height, Programs.Flatten(columns))) == Ok(columns)
  {
    var bytes := Encoded(|columns|, height, Programs.Flatten(columns));
    EncodedStream(columns, height, bytes);
    GridOfEncoded(columns, height);
    DecodeGrid(bytes, |columns|, height);
  }

  /** The number of codels of a `width × height` program. */
  function Cells(width: nat, height: nat): nat
  {
    width * height
  }

  /**
   * The format's bytes for a program start with its width and height and
   * hold one group per started eleven codels, whose buffers read back.
   */
  lemma EncodedStream(columns: seq<seq<Colours.Colour>>, height: nat, bytes: seq<Byte>)
    requires |columns| <= MaxInt32 && height <= MaxInt32 && Programs.Rectangular(columns, height)
    requires bytes == Encoded(|columns|, height, Programs.Flatten(columns))
    ensures ReadInt32(bytes, 0) == Ok(|columns|) && ReadInt32(bytes, 4) == Ok(height)
    ensures |bytes| == 8 + 6 * GroupCount(Cells(|columns|, height))
    ensures Buffers(bytes, GroupCount(Cells(|columns|, height))) == EncodedGroups(Indices(Programs.Flatten(columns)))
  {
    var digits := Indices(Programs.Flatten(columns));
    Programs.FlattenAt(columns, height);
    EncodedGroupsLength(digits);
    IndicesAreDigits(Programs.Flatten(columns));
    EncodedGroupsFit(digits);
    StreamOfGroups(|columns|, height, EncodedGroups(digits), bytes);
  }

  /** A header and groups whose buffers fit read back as the dimensions and the buffers. */
  lemma StreamOfGroups(width: Int32, height: Int32, buffers: seq<nat>, bytes: seq<Byte>)
    requires bytes == Header(width, height) + Serialized(buffers)
    requires forall g :: 0 <= g < |buffers| ==> buffers[g] < 0x1_0000_0000_0000
    ensures ReadInt32(bytes, 0) == Ok(width) && ReadInt32(bytes, 4) == Ok(height)
    ensures |bytes| == 8 + 6 * |buffers| && Buffers(bytes, |buffers|) == buffers
  {
    HeaderRoundTrip(width, height, Serialized(buffers));
    BuffersOfSerialized(Header(width, height), buffers);
  }

  /**
   * The as-written `Save` loses a program whose codels after the last whole
   * group are all black: one black codel saves as the header alone, and
   * loading that runs out of stream.
   */
  lemma SavedBlackCodelFailsToLoad()
    ensures Decode(SaveBytes(1, 1, [Colours.Black])) == Err(EndOfStream)
  {
    var colours := [Colours.Black];
    assert colours[..0] == [];
    assert Run(colours) == Packing([], 0, 1);
    assert Serialized([]) == [];
    HeaderRoundTrip(1, 1, []);
    assert Header(1, 1) + [] == SaveBytes(1, 1, colours);
  }

  // ----- The Load method -----

  /**
   * The position `x·height + y` of cell `(x, y)`, counted column by column;
   * written as repeated addition so that facts about all cells stay linear.
   */
  function Place(x: nat, y: nat, height: nat): nat
  {
    if x == 0 then y else Place(x - 1, y, height) + height
  }

  lemma {:induction false} PlaceIs(x: nat, y: nat, height: nat)
    ensures Place(x, y, height) == x * height + y
  {
    if x > 0 {
      PlaceIs(x - 1, y, height);
      Programs.MulStep(x - 1, height);
    }
  }

  /** Every cell of a `width × height` grid lies below `width·height`. */
  lemma PlaceBelow(x: nat, y: nat, width: nat, height: nat)
    requires x < width && y < height
    ensures Place(x, y, height) < width * height
  {
    PlaceIs(x, y, height);
    Programs.IndexBefore(x, y, width, height);
  }

  /** A position below `width·height` is the cell `(p / height, p % height)` of the grid. */
  lemma CellOf(p: nat, width: nat, height: nat) returns (x: nat, y: nat)
    requires height > 0 && p < width * height
    ensures x == p / height && y == p % height && x < width && y < height && Place(x, y, height) == p
  {
    x, y := p / height, p % height;
    PlaceIs(x, y, height);
    if x >= width {
      ScaleMonotone(height, width, x);
      assert false;
    }
  }

  /** Dropping the lowest base-20 digit of what is left drops one more digit of the buffer. */
  lemma NextDigit(buffer: nat, k: nat)
    ensures buffer / Pow20(k) / 20 == buffer / Pow20(k + 1)
  {
    DivideTwice(buffer, Pow20(k), 20);
    assert Pow20(k + 1) == Pow20(k) * 20;
  }

  /** The cell `(x, y)` is at position `x·height + y` and at no other. */
  lemma CellUnique(x: nat, y: nat, height: nat)
    requires y < height
    ensures Place(x, y, height) / height == x && Place(x, y, height) % height == y
  {
    PlaceIs(x, y, height);
    QuotientUnique(x * height + y, height, x, y);
    RemainderUnique(x * height + y, height, x, y);
  }

  /** A grid of `width·height` cells with cells only when the product is positive. */
  lemma PositiveHeight(width: nat, height: nat)
    requires width * height > 0
    ensures height > 0
  {
  }

  /** A stream whose groups end too early fails with EndOfStream. */
  lemma DecodeShort(bytes: seq<Byte>, width: Int32, height: Int32)
    requires ReadInt32(bytes, 0) == Ok(width) && ReadInt32(bytes, 4) == Ok(height)
    requires 0 <= width && (width == 0 || (0 <= height && width * height <= MaxInt32))
    requires |bytes| < 8 + 6 * GroupCount(width * height)
    ensures Decode(bytes) == Err(EndOfStream)
  {
  }

  /** The arrays of a jagged `width × height` array: one row per column, all distinct. */
  ghost predicate JaggedShape(codels: array<array<Colours.Colour>>, width: nat, height: int)
    reads codels
  {
    codels.Length == width &&
    (forall x :: 0 <= x < width ==> codels[x].Length == height) &&
    (forall x, x' :: 0 <= x < x' < width ==> codels[x] != codels[x'])
  }

  /**
   * The inner loop of `Load`: the eleven codels of group `g`, from the last
   * back to the first, each the lowest base-20 digit of what is left of the
   * buffer; positions at or past `width·height` are skipped.
   */
  method Unpack(codels: array<array<Colours.Colour>>, width: nat, height: nat, length: nat, buffer: nat,
                ghost g: nat, ghost buffers: seq<nat>)
    requires JaggedShape(codels, width, height) && height > 0
    requires length == 11 * g && g < |buffers| && buffers[g] == buffer
    modifies set x | 0 <= x < width :: codels[x]
    ensures forall x, y :: 0 <= x < width && 0 <= y < height ==>
      codels[x][y] == if length <= Place(x, y, height) < length + 11
        then Colours.All[Digit(buffers, Place(x, y, height))] else old(codels[x][y])
  {
    var rest := buffer;
    var codel := 11;
    while codel > 0
      invariant 0 <= codel <= 11 && rest == buffer / Pow20(11 - codel)
      invariant forall x, y :: 0 <= x < width && 0 <= y < height ==>
        codels[x][y] == if length + codel <= Place(x, y, height) < length + 11
          then Colours.All[Digit(buffers, Place(x, y, height))] else old(codels[x][y])
    {
      codel := codel - 1;
      var pos := length + codel;
      Position(g, codel);
      assert Digit(buffers, pos) == rest % 20;
      Store(codels, width, height, pos, Colours.All[rest % 20]);
      NextDigit(buffer, 10 - codel);
      rest := rest / 20;
    }
  }

  /** `if (pos < size) codels[x][y] = ...`: the one cell at position `pos`, when there is one, takes `colour`. */
  method Store(codels: array<array<Colours.Colour>>, width: nat, height: nat, pos: nat, colour: Colours.Colour)
    requires JaggedShape(codels, width, height) && height > 0
    modifies set x | 0 <= x < width :: codels[x]
    ensures forall x, y :: 0 <= x < width && 0 <= y < height ==>
      codels[x][y] == if Place(x, y, height) == pos then colour else old(codels[x][y])
  {
    if pos < width * height {
      var x, y := pos / height, pos % height;
      var _, _ := CellOf(pos, width, height);
      codels[x][y] := colour;
      forall x', y' | 0 <= x' < width && 0 <= y' < height && Place(x', y', height) == pos
        ensures x' == x && y' == y
      {
        CellUnique(x', y', height);
      }
    } else {
      forall x', y' | 0 <= x' < width && 0 <= y' < height
        ensures Place(x', y', height) != pos
      {
        PlaceBelow(x', y', width, height);
      }
    }
  }

  /** The columns of a filled jagged array: the grid its buffers hold. */
  method Columns(codels: array<array<Colours.Colour>>, width: nat, height: nat, length: nat, ghost buffers: seq<nat>)
    returns (columns: seq<seq<Colours.Colour>>)
    requires JaggedShape(codels, width, height) && width * height <= length
    requires forall x, y :: 0 <= x < width && 0 <= y < height && Place(x, y, height) < length ==>
      codels[x][y] == Colours.All[Digit(buffers, Place(x, y, height))]
    ensures columns == Grid(buffers, width, height)
  {
    columns := [];
    for x := 0 to width
      invariant |columns| == x && forall i :: 0 <= i < x ==> columns[i] == codels[i][..]
    {
      columns := columns + [codels[x][..]];
    }
    forall x, y | 0 <= x < width && 0 <= y < height
      ensures columns[x][y] == Grid(buffers, width, height)[x][y]
    {
      PlaceBelow(x, y, width, height);
      PlaceIs(x, y, height);
      GridAt(buffers, width, height, x, y, Place(x, y, height));
    }
    SameGrid(columns, Grid(buffers, width, height), height);
  }

  /**
   * The outer loop of `Load`: groups of eleven codels, six bytes each after
   * the header, until `width·height` codels are placed; it fails with
   * EndOfStream exactly when the stream holds fewer groups than that.
   */
  method Fill(bytes: seq<Byte>, codels: array<array<Colours.Colour>>, width: nat, height: nat, ghost buffers: seq<nat>)
    returns (r: Result<nat>)
    requires 8 <= |bytes| && JaggedShape(codels, width, height)
    requires buffers == Buffers(bytes, GroupCount(width * height))
    modifies set x | 0 <= x < width :: codels[x]
    ensures r.Ok? <==> 8 + 6 * GroupCount(width * height) <= |bytes|
    ensures r.Err? ==> r.error == EndOfStream
    ensures r.Ok? ==> width * height <= r.value && forall x, y ::
      0 <= x < width && 0 <= y < height && Place(x, y, height) < r.value ==>
        codels[x][y] == Colours.All[Digit(buffers, Place(x, y, height))]
  {
    var size := width * height;
    var length := 0;
    var offset := 8;
    ghost var g := 0;
    while length < size
      invariant length == 11 * g && offset == 8 + 6 * g && offset <= |bytes|
      invariant g == 0 || 11 * (g - 1) < size
      invariant forall x, y :: 0 <= x < width && 0 <= y < height && Place(x, y, height) < length ==>
        codels[x][y] == Colours.All[Digit(buffers, Place(x, y, height))]
    {
      var big :- ReadUInt32(bytes, offset);
      var small :- ReadUInt16(bytes, offset + 4);
      var buffer := Joined(big, small);
      PositiveHeight(width, height);
      Unpack(codels, width, height, length, buffer, g, buffers);
      length := length + 11;
      offset := offset + 6;
      g := g + 1;
    }
    return Ok(length);
  }

  /**
   * `Binary.Load(stream)`: the header, a jagged array of the dimensions, then
   * groups of eleven codels until `width·height` codels are read, and a
   * program of the columns. It fails as `Decode` says.
   */
  method Load(bytes: seq<Byte>) returns (r: Result<Programs.Program>)
    ensures r.Ok? <==> Decode(bytes).Ok?
    ensures r.Err? ==> r.error == Decode(bytes).error
    ensures r.Ok? ==> fresh(r.value) && r.value.Valid() && r.value.codels == Decode(bytes).value
  {
    var width :- ReadInt32(bytes, 0);
    var height :- ReadInt32(bytes, 4);
    var codels :- Jagged.Array(width, height, Colours.Black);
    if width > 0 && width * height > MaxInt32 {
      return Err(Overflow);
    }
    var size: nat := width * height;
    ghost var buffers := Buffers(bytes, GroupCount(size));
    // with no columns the height is never used and may be negative
    var filled := Fill(bytes, codels, width, if width == 0 then 0 else height, buffers);
    if filled.Err? {
      DecodeShort(bytes, width, height);
      return Err(filled.error);
    }
    if width == 0 {
      return Err(IndexOutOfRange);
    }
    var columns := Columns(codels, width, height, filled.value, buffers);
    DecodeGrid(bytes, width, height);
    var program := new Programs.Program(columns);
    return Ok(program);
  }
}
