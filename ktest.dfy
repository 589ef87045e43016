/**
  The decoder of KLEE's `.ktest` test files, applied to the bytes of a file:
  a five-byte magic, a big-endian signed 32-bit version, the program
  arguments (length-prefixed ASCII strings), the symbolic-argument counts
  (present from version 2 on) and the symbolic objects (a length-prefixed
  name, then length-prefixed contents).
 */
module KTestFile {

  import opened Wrappers

  /** The newest file version the decoder accepts. */
  const MaxVersion: int := 3

  /** "KTEST" */
  const KTestMagic: seq<byte> := [0x4B, 0x54, 0x45, 0x53, 0x54]
  /** "BOUT\n", the magic of older files. */
  const BoutMagic: seq<byte> := [0x42, 0x4F, 0x55, 0x54, 0x0A]

  /** One byte of the file. */
  newtype byte = b: int | 0 <= b < 0x100

  const Two31: int := 0x8000_0000
  const Two32: int := 0x1_0000_0000

  /** One symbolic object: its name and its contents, both raw bytes. */
  datatype KObject = KObject(name: seq<byte>, bytes: seq<byte>)

  /** A decoded test case. */
  datatype KTest = KTest(version: int, args: seq<string>, symArgvs: int, symArgvLen: int, objects: seq<KObject>)

  /** Why a file is rejected. `Truncated` is a 32-bit field cut short by the
      end of the file; `BadReadLength` is a size field below -1, which the
      file's `read` refuses; `NotAscii` names the argument that does not
      decode; `NoArgs` is a file without arguments, whose program name is
      missing. */
  datatype KTestError = UnrecognizedFile | UnrecognizedVersion(version: int) | Truncated | BadReadLength | NotAscii(arg: nat) | NoArgs

  predicate IsInt32(x: int) {
    -Two31 <= x < Two31
  }

  // ---------------------------------------------------------------------------
  // Fields
  // ---------------------------------------------------------------------------

  /** Four bytes, most significant first, as a two's-complement 32-bit integer. */
  function Word(b0: byte, b1: byte, b2: byte, b3: byte): (x: int)
    ensures IsInt32(x)
    ensures x < 0 <==> b0 >= 0x80
  {
    var u := b0 as int * 0x100_0000 + b1 as int * 0x1_0000 + b2 as int * 0x100 + b3 as int;
    if u < Two31 then u else u - Two32
  }

  /** `struct.unpack('>i', b)`. */
  function DecodeInt(b: seq<byte>): (x: int)
    requires |b| == 4
    ensures IsInt32(x)
  {
    Word(b[0], b[1], b[2], b[3])
  }

  /** `struct.pack('>i', x)`. */
  function EncodeInt(x: int): (b: seq<byte>)
    requires IsInt32(x)
    ensures |b| == 4
  {
    var u := if x < 0 then x + Two32 else x;
    [(u / 0x100_0000) as byte, (u / 0x1_0000 % 0x100) as byte, (u / 0x100 % 0x100) as byte, (u % 0x100) as byte]
  }

  lemma DecodeEncodeInt(x: int)
    requires IsInt32(x)
    ensures DecodeInt(EncodeInt(x)) == x
  {
    var u := if x < 0 then x + Two32 else x;
    var q1, q2 := u / 0x100, u / 0x1_0000;
    DivMod(u, 0x1_0000, q1 / 0x100, q1 % 0x100 * 0x100 + u % 0x100);
    DivMod(u, 0x100_0000, q2 / 0x100, q2 % 0x100 * 0x1_0000 + q1 % 0x100 * 0x100 + u % 0x100);
  }

  lemma EncodeDecodeInt(b: seq<byte>)
    requires |b| == 4
    ensures EncodeInt(DecodeInt(b)) == b
  {
    var b0, b1, b2, b3 := b[0] as int, b[1] as int, b[2] as int, b[3] as int;
    var u := b0 * 0x100_0000 + b1 * 0x1_0000 + b2 * 0x100 + b3;
    DivMod(u, 0x100_0000, b0, b1 * 0x1_0000 + b2 * 0x100 + b3);
    DivMod(u, 0x1_0000, b0 * 0x100 + b1, b2 * 0x100 + b3);
    DivMod(b0 * 0x100 + b1, 0x100, b0, b1);
    DivMod(u, 0x100, b0 * 0x1_0000 + b1 * 0x100 + b2, b3);
    DivMod(b0 * 0x1_0000 + b1 * 0x100 + b2, 0x100, b0 * 0x100 + b1, b2);
    assert b == [b[0], b[1], b[2], b[3]];
  }

  /** Quotient and remainder are unique. */
  lemma DivMod(a: int, d: int, q: int, r: int)
    requires d > 0 && a == q * d + r && 0 <= r < d
    ensures a / d == q && a % d == r
  {
    var k := q - a / d;
    assert k * d == a % d - r;
    MultipleBounds(k, d);
  }

  /** A non-zero multiple of a positive d is at least d away from 0. */
  lemma MultipleBounds(k: int, d: int)
    requires d > 0
    ensures k >= 1 ==> k * d >= d
    ensures k <= -1 ==> k * d <= -d
  {
    if k >= 1 {
      assert k * d == (k - 1) * d + d;
    } else if k <= -1 {
      assert k * d == (k + 1) * d - d;
    }
  }

  /** `f.read(n)` on a buffered binary file at position pos: n = -1 reads to
      the end of the file, a read past the end returns only the bytes that
      remain, and any n below -1 is refused. */
  function ReadBytes(data: seq<byte>, pos: nat, n: int): (r: Result<(seq<byte>, nat), KTestError>)
    requires pos <= |data|
    ensures r.Failure? <==> n < -1
    ensures r.Failure? ==> r.error == BadReadLength
    ensures r.Success? ==> pos <= r.value.1 <= |data| && r.value.0 == data[pos..r.value.1]
    ensures r.Success? && n >= 0 && pos + n <= |data| ==> |r.value.0| == n
    ensures r.Success? && (n == -1 || pos + n > |data|) ==> r.value.1 == |data|
  {
    if n < -1 then Failure(BadReadLength)
    else
      var end := if n == -1 || pos + n > |data| then |data| else pos + n;
      Success((data[pos..end], end))
  }

  /** The 32-bit field at pos, when four bytes remain there. */
  function FieldAt(data: seq<byte>, pos: nat): int
    requires pos + 4 <= |data|
  {
    Word(data[pos], data[pos + 1], data[pos + 2], data[pos + 3])
  }

  /** `struct.unpack('>i', f.read(4))`: fails unless four bytes remain. */
  function IntAt(data: seq<byte>, pos: nat): (r: Result<(int, nat), KTestError>)
    requires pos <= |data|
    ensures r.Failure? <==> pos + 4 > |data|
    ensures r.Failure? ==> r.error == Truncated
    ensures r.Success? ==> r.value.1 == pos + 4 && IsInt32(r.value.0)
  {
    if pos + 4 > |data| then Failure(Truncated)
    else Success((Word(data[pos], data[pos + 1], data[pos + 2], data[pos + 3]), pos + 4))
  }

  /** Python's `range(n)` has no elements for a negative n. */
  function Count(n: int): nat {
    if n < 0 then 0 else n
  }

  // ---------------------------------------------------------------------------
  // ASCII
  // ---------------------------------------------------------------------------

  predicate IsAscii(b: seq<byte>) {
    forall i :: 0 <= i < |b| ==> b[i] < 0x80
  }

  predicate IsAsciiString(s: string) {
    forall i :: 0 <= i < |s| ==> s[i] < 0x80 as char
  }

  predicate AllAscii(args: seq<string>) {
    forall j :: 0 <= j < |args| ==> IsAsciiString(args[j])
  }

  /** `bytes.decode('ascii')`, defined on bytes below 0x80. */
  function AsciiDecode(b: seq<byte>): (s: string)
    requires IsAscii(b)
    ensures |s| == |b| && IsAsciiString(s)
  {
    seq(|b|, i requires 0 <= i < |b| => (b[i] as int) as char)
  }

  function AsciiEncode(s: string): (b: seq<byte>)
    requires IsAsciiString(s)
    ensures |b| == |s| && IsAscii(b)
  {
    seq(|s|, i requires 0 <= i < |s| => (s[i] as int) as byte)
  }

  lemma AsciiRoundTrip(s: string)
    requires IsAsciiString(s)
    ensures AsciiDecode(AsciiEncode(s)) == s
  {
  }

  // ---------------------------------------------------------------------------
  // The decoder
  // ---------------------------------------------------------------------------

  /** Argument number `index` at position pos: a 32-bit size, then that
      many bytes of ASCII. */
  function ArgAt(data: seq<byte>, pos: nat, index: nat): (r: Result<(string, nat), KTestError>)
    requires pos <= |data|
    ensures r.Success? ==> pos + 4 <= r.value.1 <= |data| && IsAsciiString(r.value.0)
    ensures r.Failure? ==> r.error == Truncated || r.error == BadReadLength || r.error == NotAscii(index)
    ensures r == Failure(Truncated) <==> pos + 4 > |data|
    ensures r == Failure(BadReadLength) <==> pos + 4 <= |data| && FieldAt(data, pos) < -1
  {
    var size :- IntAt(data, pos);
    var chunk :- ReadBytes(data, size.1, size.0);
    if !IsAscii(chunk.0) then Failure(NotAscii(index))
    else Success((AsciiDecode(chunk.0), chunk.1))
  }

  /** The loop over the `n` arguments from position pos, appending to acc. */
  function ParseArgs(data: seq<byte>, pos: nat, n: nat, acc: seq<string>): (r: Result<(seq<string>, nat), KTestError>)
    requires pos <= |data|
    ensures r.Success? ==> pos <= r.value.1 <= |data| && |r.value.0| == |acc| + n
    ensures r.Success? && AllAscii(acc) ==> AllAscii(r.value.0)
    ensures r.Failure? ==> r.error == Truncated || r.error == BadReadLength || r.error.NotAscii?
    decreases n
  {
    if n == 0 then Success((acc, pos))
    else
      match ArgAt(data, pos, |acc|)
      case Failure(e) => Failure(e)
      case Success((a, p)) =>
        ParseArgs(data, p, n - 1, acc + [a])
  }

  /** `symArgvs` and `symArgvLen`, read only from version 2 on, otherwise 0. */
  function ParseSymArgs(data: seq<byte>, pos: nat, version: int): (r: Result<((int, int), nat), KTestError>)
    requires pos <= |data|
    ensures r.Success? ==> pos <= r.value.1 <= |data|
    ensures r.Success? && version < 2 ==> r.value == ((0, 0), pos)
    ensures version >= 2 ==> (r.Success? <==> pos + 8 <= |data|)
    ensures r.Failure? ==> r.error == Truncated
  {
    if version >= 2 then
      var s :- IntAt(data, pos);
      var l :- IntAt(data, s.1);
      Success(((s.0, l.0), l.1))
    else
      Success(((0, 0), pos))
  }

  /** One object at position pos: a 32-bit size and that many bytes of
      name, then a 32-bit size and that many bytes of contents. */
  function ObjectAt(data: seq<byte>, pos: nat): (r: Result<(KObject, nat), KTestError>)
    requires pos <= |data|
    ensures r.Success? ==> pos + 8 <= r.value.1 <= |data|
    ensures r.Failure? ==> r.error == Truncated || r.error == BadReadLength
    ensures pos + 4 <= |data| && FieldAt(data, pos) < -1 ==> r == Failure(BadReadLength)
    ensures r.Success? ==> FieldAt(data, pos) >= -1
    ensures r.Success? ==>
      var second := r.value.1 - |r.value.0.bytes| - 4;
      pos + 4 <= second && second + 4 <= |data| && FieldAt(data, second) >= -1
  {
    var nameSize :- IntAt(data, pos);
    var name :- ReadBytes(data, nameSize.1, nameSize.0);
    var size :- IntAt(data, name.1);
    var bytes :- ReadBytes(data, size.1, size.0);
    Success((KObject(name.0, bytes.0), bytes.1))
  }

  /** An object whose contents size is -2 is refused, not read to the end. */
  lemma NegativeSizeRefused()
    ensures ObjectAt([0, 0, 0, 0] + [0xFF, 0xFF, 0xFF, 0xFE, 7], 0) == Failure(BadReadLength)
  {
    var d: seq<byte> := [0, 0, 0, 0] + [0xFF, 0xFF, 0xFF, 0xFE, 7];
    assert IntAt(d, 0) == Success((0, 4)) by { assert d[..4] == [0, 0, 0, 0]; }
    assert ReadBytes(d, 4, 0) == Success(([], 4));
    assert IntAt(d, 4) == Success((-2, 8)) by {
      assert d[4] == 0xFF && d[5] == 0xFF && d[6] == 0xFF && d[7] == 0xFE;
    }
  }

  /** The loop over the `n` objects from position pos, appending to acc. */
  function ParseObjects(data: seq<byte>, pos: nat, n: nat, acc: seq<KObject>): (r: Result<(seq<KObject>, nat), KTestError>)
    requires pos <= |data|
    ensures r.Success? ==> pos <= r.value.1 <= |data| && |r.value.0| == |acc| + n
    ensures r.Failure? ==> r.error == Truncated || r.error == BadReadLength
    decreases n
  {
    if n == 0 then Success((acc, pos))
    else
      match ObjectAt(data, pos)
      case Failure(e) => Failure(e)
      case Success((o, p)) =>
        ParseObjects(data, p, n - 1, acc + [o])
  }

  /** The fields after the arguments: the symbolic-argument counts, the
      objects, and the check that there is a first argument. */
  function ParseTail(data: seq<byte>, pos: nat, version: int, args: seq<string>): (r: Result<KTest, KTestError>)
    requires pos <= |data|
    ensures r.Success? ==> r.value.version == version && r.value.args == args && args != []
    ensures r.Success? && version < 2 ==> r.value.symArgvs == 0 && r.value.symArgvLen == 0
    ensures r.Failure? ==> r.error == Truncated || r.error == BadReadLength || r.error == NoArgs
  {
    var sym :- ParseSymArgs(data, pos, version);
    var numObjects :- IntAt(data, sym.1);
    var objects :- ParseObjects(data, numObjects.1, Count(numObjects.0), []);
    if args == [] then Failure(NoArgs)
    else Success(KTest(version, args, sym.0.0, sym.0.1, objects.0))
  }

  /** The header is one of the two magics. */
  predicate GoodMagic(data: seq<byte>) {
    |data| >= 5 && (data[..5] == KTestMagic || data[..5] == BoutMagic)
  }

  /**
    The whole decoder. Succeeds only on a file with a known magic, a version
    of at most 3, at least one argument and ASCII arguments; the
    symbolic-argument counts are 0 before version 2; bytes after the last
    object are ignored.
   */
  function Parse(data: seq<byte>): (r: Result<KTest, KTestError>)
    ensures r == Failure(UnrecognizedFile) <==> !GoodMagic(data)
    ensures (r.Failure? && r.error.UnrecognizedVersion?) <==>
      GoodMagic(data) && |data| >= 9 && Word(data[5], data[6], data[7], data[8]) > MaxVersion
    ensures r.Failure? && r.error.UnrecognizedVersion? ==> r.error.version == Word(data[5], data[6], data[7], data[8])
    ensures r.Success? ==>
      && r.value.version <= MaxVersion
      && r.value.args != []
      && AllAscii(r.value.args)
      && (r.value.version < 2 ==> r.value.symArgvs == 0 && r.value.symArgvLen == 0)
  {
    if !GoodMagic(data) then Failure(UnrecognizedFile)
    else
      var version :- IntAt(data, 5);
      if version.0 > MaxVersion then Failure(UnrecognizedVersion(version.0))
      else
        var numArgs :- IntAt(data, version.1);
        var args :- ParseArgs(data, numArgs.1, Count(numArgs.0), []);
        ParseTail(data, args.1, version.0, args.0)
  }

  /** A whole file, otherwise well formed, whose one object has contents
      size -2: the decoder refuses it. */
  lemma ParseRefusesNegativeSize()
    ensures Parse(KTestMagic + [0, 0, 0, 1] + [0, 0, 0, 1] + [0, 0, 0, 1, 0x61]
                  + [0, 0, 0, 1] + [0, 0, 0, 0] + [0xFF, 0xFF, 0xFF, 0xFE, 7]) == Failure(BadReadLength)
  {
    var d := KTestMagic + [0, 0, 0, 1] + [0, 0, 0, 1] + [0, 0, 0, 1, 0x61]
             + [0, 0, 0, 1] + [0, 0, 0, 0] + [0xFF, 0xFF, 0xFF, 0xFE, 7];
    assert d[..5] == KTestMagic;
    assert IntAt(d, 5) == Success((1, 9));
    assert IntAt(d, 9) == Success((1, 13));
    assert ArgAt(d, 13, 0) == Success(("a", 18)) by {
      assert IntAt(d, 13) == Success((1, 17));
      assert d[17..18] == [0x61];
      assert ReadBytes(d, 17, 1) == Success(([0x61], 18));
      assert IsAscii([0x61]);
      assert AsciiDecode([0x61]) == "a";
    }
    assert ParseArgs(d, 18, 0, ["a"]) == Success((["a"], 18));
    assert IntAt(d, 18) == Success((1, 22));
    assert ObjectAt(d, 22) == Failure(BadReadLength) by {
      assert IntAt(d, 22) == Success((0, 26));
      assert IntAt(d, 26) == Success((-2, 30));
    }
  }

  // ---------------------------------------------------------------------------
  // The encoder, and the round trip
  // ---------------------------------------------------------------------------

  /** Arguments the format can hold: ASCII, each shorter than 2^31. */
  predicate ArgsFit(args: seq<string>) {
    forall j :: 0 <= j < |args| ==> IsAsciiString(args[j]) && |args[j]| < Two31
  }

  /** Objects the format can hold: names and contents shorter than 2^31. */
  predicate ObjectsFit(objects: seq<KObject>) {
    forall j :: 0 <= j < |objects| ==> |objects[j].name| < Two31 && |objects[j].bytes| < Two31
  }

  /** A test case the format can hold and the decoder accepts. */
  predicate Encodable(k: KTest) {
    && IsInt32(k.version) && k.version <= MaxVersion
    && k.args != [] && |k.args| < Two31 && ArgsFit(k.args)
    && (if k.version >= 2 then IsInt32(k.symArgvs) && IsInt32(k.symArgvLen)
        else k.symArgvs == 0 && k.symArgvLen == 0)
    && |k.objects| < Two31 && ObjectsFit(k.objects)
  }

  function EncodeArg(a: string): seq<byte>
    requires IsAsciiString(a) && |a| < Two31
  {
    EncodeInt(|a|) + AsciiEncode(a)
  }

  lemma ArgsFitTail(args: seq<string>)
    requires ArgsFit(args) && args != []
    ensures ArgsFit(args[1..])
  {
    forall j | 0 <= j < |args[1..]| ensures IsAsciiString(args[1..][j]) && |args[1..][j]| < Two31 {
      assert args[1..][j] == args[j + 1];
    }
  }

  function EncodeArgs(args: seq<string>): seq<byte>
    requires ArgsFit(args)
  {
    if args == [] then []
    else
      ArgsFitTail(args);
      EncodeArg(args[0]) + EncodeArgs(args[1..])
  }

  function EncodeObject(o: KObject): seq<byte>
    requires |o.name| < Two31 && |o.bytes| < Two31
  {
    EncodeInt(|o.name|) + o.name + (EncodeInt(|o.bytes|) + o.bytes)
  }

  lemma ObjectsFitTail(objects: seq<KObject>)
    requires ObjectsFit(objects) && objects != []
    ensures ObjectsFit(objects[1..])
  {
    forall j | 0 <= j < |objects[1..]| ensures |objects[1..][j].name| < Two31 && |objects[1..][j].bytes| < Two31 {
      assert objects[1..][j] == objects[j + 1];
    }
  }

  function EncodeObjects(objects: seq<KObject>): seq<byte>
    requires ObjectsFit(objects)
  {
    if objects == [] then []
    else
      ObjectsFitTail(objects);
      EncodeObject(objects[0]) + EncodeObjects(objects[1..])
  }

  function EncodeSymArgs(k: KTest): seq<byte>
    requires Encodable(k)
  {
    if k.version >= 2 then EncodeInt(k.symArgvs) + EncodeInt(k.symArgvLen) else []
  }

  /** The fields after the arguments. */
  function EncodeTail(k: KTest): seq<byte>
    requires Encodable(k)
  {
    EncodeSymArgs(k) + (EncodeInt(|k.objects|) + EncodeObjects(k.objects))
  }

  /** Everything after the magic. */
  function EncodeBody(k: KTest): seq<byte>
    requires Encodable(k)
  {
    EncodeInt(k.version) + (EncodeInt(|k.args|) + (EncodeArgs(k.args) + EncodeTail(k)))
  }

  /** The file that holds k, under either magic. */
  function Encode(k: KTest, magic: seq<byte>): seq<byte>
    requires Encodable(k)
  {
    magic + EncodeBody(k)
  }

  /** The bytes x sit at position pos of data, one byte after another. */
  predicate At(data: seq<byte>, pos: nat, x: seq<byte>)
    decreases |x|
  {
    if x == [] then pos <= |data|
    else pos < |data| && data[pos] == x[0] && At(data, pos + 1, x[1..])
  }

  /** At says that x is the slice of data from pos. */
  lemma {:induction false} AtIsSlice(data: seq<byte>, pos: nat, x: seq<byte>)
    ensures At(data, pos, x) <==> pos + |x| <= |data| && data[pos..pos + |x|] == x
    decreases |x|
  {
    if x != [] {
      AtIsSlice(data, pos + 1, x[1..]);
      if pos + |x| <= |data| {
        assert data[pos..pos + |x|] == [data[pos]] + data[pos + 1..pos + |x|];
      }
    }
  }

  lemma {:induction false} AtSplit(data: seq<byte>, pos: nat, x: seq<byte>, y: seq<byte>)
    requires At(data, pos, x + y)
    ensures At(data, pos, x) && At(data, pos + |x|, y)
    decreases |x|
  {
    if x == [] {
      assert x + y == y;
    } else {
      assert (x + y)[1..] == x[1..] + y;
      AtSplit(data, pos + 1, x[1..], y);
    }
  }

  lemma IntAtEncoded(data: seq<byte>, pos: nat, x: int)
    requires IsInt32(x) && At(data, pos, EncodeInt(x))
    ensures IntAt(data, pos) == Success((x, pos + 4))
  {
    IntAtWord(data, pos, EncodeInt(x));
    DecodeEncodeInt(x);
  }

  /** Four bytes laid at `pos` are what the integer reader decodes there. */
  lemma IntAtWord(data: seq<byte>, pos: nat, w: seq<byte>)
    requires |w| == 4 && At(data, pos, w)
    ensures IntAt(data, pos) == Success((DecodeInt(w), pos + 4))
  {
    AtIsSlice(data, pos, w);
    assert data[pos..pos + 4] == w;
    assert data[pos] == w[0] && data[pos + 1] == w[1] && data[pos + 2] == w[2] && data[pos + 3] == w[3];
  }

  lemma ArgAtEncoded(data: seq<byte>, pos: nat, a: string, index: nat)
    requires IsAsciiString(a) && |a| < Two31 && At(data, pos, EncodeArg(a))
    ensures ArgAt(data, pos, index) == Success((a, pos + |EncodeArg(a)|))
  {
    ChunkAtEncoded(data, pos, AsciiEncode(a));
    AsciiRoundTrip(a);
  }

  /** A length-prefixed run of bytes reads back as its length and then its bytes. */
  lemma ChunkAtEncoded(data: seq<byte>, pos: nat, x: seq<byte>)
    requires |x| < Two31 && At(data, pos, EncodeInt(|x|) + x)
    ensures IntAt(data, pos) == Success((|x|, pos + 4))
    ensures pos + 4 + |x| <= |data| && ReadBytes(data, pos + 4, |x|) == Success((x, pos + 4 + |x|))
  {
    AtSplit(data, pos, EncodeInt(|x|), x);
    DecodeEncodeInt(|x|);
    ChunkPartsEncoded(data, pos, EncodeInt(|x|), x);
  }

  lemma ChunkPartsEncoded(data: seq<byte>, pos: nat, w: seq<byte>, x: seq<byte>)
    requires |w| == 4 && DecodeInt(w) == |x| && At(data, pos, w) && At(data, pos + 4, x)
    ensures IntAt(data, pos) == Success((|x|, pos + 4))
    ensures pos + 4 + |x| <= |data| && ReadBytes(data, pos + 4, |x|) == Success((x, pos + 4 + |x|))
  {
    IntAtWord(data, pos, w);
    ReadBytesAt(data, pos + 4, x);
  }

  lemma ReadBytesAt(data: seq<byte>, pos: nat, x: seq<byte>)
    requires At(data, pos, x)
    ensures pos + |x| <= |data| && ReadBytes(data, pos, |x|) == Success((x, pos + |x|))
  {
    AtIsSlice(data, pos, x);
  }

  /** The encoding of the args from number i on is that of argument i followed
      by that of the rest. */
  lemma ArgsSplit(data: seq<byte>, pos: nat, args: seq<string>, i: nat)
    requires i < |args| && ArgsFit(args[i..]) && At(data, pos, EncodeArgs(args[i..]))
    ensures ArgsFit(args[i + 1..])
    ensures pos + |EncodeArgs(args[i..])| == pos + |EncodeArg(args[i])| + |EncodeArgs(args[i + 1..])|
    ensures At(data, pos, EncodeArg(args[i]))
    ensures At(data, pos + |EncodeArg(args[i])|, EncodeArgs(args[i + 1..]))
  {
    assert args[i..][0] == args[i] && args[i..][1..] == args[i + 1..];
    ArgsFitTail(args[i..]);
    AtSplit(data, pos, EncodeArg(args[i]), EncodeArgs(args[i + 1..]));
  }

  /** One turn of the argument loop, when argument i decodes. */
  lemma ParseArgsStep(data: seq<byte>, pos: nat, args: seq<string>, i: nat, next: nat)
    requires pos <= |data| && i < |args|
    requires ArgAt(data, pos, i) == Success((args[i], next))
    ensures ParseArgs(data, pos, |args| - i, args[..i]) == ParseArgs(data, next, |args| - (i + 1), args[..i + 1])
  {
    assert |args[..i]| == i;
    assert args[..i] + [args[i]] == args[..i + 1];
  }

  /** One turn of the argument loop, whatever argument |acc| decodes to. */
  lemma ParseArgsNext(data: seq<byte>, pos: nat, n: nat, acc: seq<string>)
    requires pos <= |data| && n > 0
    ensures ArgAt(data, pos, |acc|).Failure? ==> ParseArgs(data, pos, n, acc) == Failure(ArgAt(data, pos, |acc|).error)
    ensures ArgAt(data, pos, |acc|).Success? ==>
      var (a, next) := ArgAt(data, pos, |acc|).value;
      ParseArgs(data, pos, n, acc) == ParseArgs(data, next, n - 1, acc + [a])
  {
  }

  /** Arguments i.. of the list sit one after another in data, from pos to end. */
  predicate ArgsLaid(data: seq<byte>, pos: nat, args: seq<string>, i: nat, end: nat)
    requires pos <= |data| && i <= |args|
    decreases |args| - i
  {
    if i == |args| then pos == end
    else
      var r := ArgAt(data, pos, i);
      r.Success? && r.value.0 == args[i] && ArgsLaid(data, r.value.1, args, i + 1, end)
  }

  /** Argument i decoding at pos, followed by the rest laid from where it ends. */
  lemma ArgsLaidStep(data: seq<byte>, pos: nat, args: seq<string>, i: nat, next: nat, end: nat)
    requires pos <= next <= |data| && i < |args|
    requires ArgAt(data, pos, i) == Success((args[i], next)) && ArgsLaid(data, next, args, i + 1, end)
    ensures ArgsLaid(data, pos, args, i, end)
  {
  }

  /** The argument loop decodes arguments laid out one after another. */
  lemma {:induction false} ParseArgsLaid(data: seq<byte>, pos: nat, args: seq<string>, i: nat, end: nat)
    requires pos <= |data| && i <= |args| && ArgsLaid(data, pos, args, i, end)
    ensures ParseArgs(data, pos, |args| - i, args[..i]) == Success((args, end))
    decreases |args| - i
  {
    if i == |args| {
      assert args[..i] == args;
    } else {
      var next := ArgAt(data, pos, i).value.1;
      ParseArgsStep(data, pos, args, i, next);
      ParseArgsLaid(data, next, args, i + 1, end);
    }
  }

  /** Encoded arguments are laid out one after another. */
  lemma {:induction false} EncodedArgsLaid(data: seq<byte>, pos: nat, args: seq<string>, i: nat, end: nat)
    requires i <= |args| && ArgsFit(args[i..]) && At(data, pos, EncodeArgs(args[i..]))
    requires end == pos + |EncodeArgs(args[i..])|
    ensures end <= |data| && ArgsLaid(data, pos, args, i, end)
    decreases |args| - i
  {
    if i == |args| {
      assert args[i..] == [];
    } else {
      var next := pos + |EncodeArg(args[i])|;
      ArgsSplit(data, pos, args, i);
      ArgAtEncoded(data, pos, args[i], i);
      EncodedArgsLaid(data, next, args, i + 1, end);
      ArgsLaidStep(data, pos, args, i, next, end);
    }
  }

  lemma ObjectAtEncoded(data: seq<byte>, pos: nat, o: KObject)
    requires |o.name| < Two31 && |o.bytes| < Two31 && At(data, pos, EncodeObject(o))
    ensures ObjectAt(data, pos) == Success((o, pos + |EncodeObject(o)|))
  {
    var second := pos + 4 + |o.name|;
    AtSplit(data, pos, EncodeInt(|o.name|) + o.name, EncodeInt(|o.bytes|) + o.bytes);
    ChunkAtEncoded(data, pos, o.name);
    ChunkAtEncoded(data, second, o.bytes);
  }

  /** The encoding of the objects from number i on is that of object i followed
      by that of the rest. */
  lemma ObjectsSplit(data: seq<byte>, pos: nat, objects: seq<KObject>, i: nat)
    requires i < |objects| && ObjectsFit(objects[i..]) && At(data, pos, EncodeObjects(objects[i..]))
    ensures ObjectsFit(objects[i + 1..])
    ensures pos + |EncodeObjects(objects[i..])| == pos + |EncodeObject(objects[i])| + |EncodeObjects(objects[i + 1..])|
    ensures At(data, pos, EncodeObject(objects[i]))
    ensures At(data, pos + |EncodeObject(objects[i])|, EncodeObjects(objects[i + 1..]))
  {
    assert objects[i..][0] == objects[i] && objects[i..][1..] == objects[i + 1..];
    ObjectsFitTail(objects[i..]);
    AtSplit(data, pos, EncodeObject(objects[i]), EncodeObjects(objects[i + 1..]));
  }

  /** One turn of the object loop, when object i decodes. */
  lemma ParseObjectsStep(data: seq<byte>, pos: nat, objects: seq<KObject>, i: nat, next: nat)
    requires pos <= |data| && i < |objects|
    requires ObjectAt(data, pos) == Success((objects[i], next))
    ensures ParseObjects(data, pos, |objects| - i, objects[..i]) == ParseObjects(data, next, |objects| - (i + 1), objects[..i + 1])
  {
    assert objects[..i] + [objects[i]] == objects[..i + 1];
  }

  /** One turn of the object loop, whatever the next object decodes to. */
  lemma ParseObjectsNext(data: seq<byte>, pos: nat, n: nat, acc: seq<KObject>)
    requires pos <= |data| && n > 0
    ensures ObjectAt(data, pos).Failure? ==> ParseObjects(data, pos, n, acc) == Failure(ObjectAt(data, pos).error)
    ensures ObjectAt(data, pos).Success? ==>
      var (o, next) := ObjectAt(data, pos).value;
      ParseObjects(data, pos, n, acc) == ParseObjects(data, next, n - 1, acc + [o])
  {
  }

  /** Objects i.. of the list sit one after another in data, from pos to end. */
  predicate ObjectsLaid(data: seq<byte>, pos: nat, objects: seq<KObject>, i: nat, end: nat)
    requires pos <= |data| && i <= |objects|
    decreases |objects| - i
  {
    if i == |objects| then pos == end
    else
      var r := ObjectAt(data, pos);
      r.Success? && r.value.0 == objects[i] && ObjectsLaid(data, r.value.1, objects, i + 1, end)
  }
  /** Object i decoding at pos, followed by the rest laid from where it ends. */
  lemma ObjectsLaidStep(data: seq<byte>, pos: nat, objects: seq<KObject>, i: nat, next: nat, end: nat)
    requires pos <= next <= |data| && i < |objects|
    requires ObjectAt(data, pos) == Success((objects[i], next)) && ObjectsLaid(data, next, objects, i + 1, end)
    ensures ObjectsLaid(data, pos, objects, i, end)
  {
  }

  /** The object loop decodes objects laid out one after another. */
  lemma {:induction false} ParseObjectsLaid(data: seq<byte>, pos: nat, objects: seq<KObject>, i: nat, end: nat)
    requires pos <= |data| && i <= |objects| && ObjectsLaid(data, pos, objects, i, end)
    ensures ParseObjects(data, pos, |objects| - i, objects[..i]) == Success((objects, end))
    decreases |objects| - i
  {
    if i == |objects| {
      assert objects[..i] == objects;
    } else {
      var next := ObjectAt(data, pos).value.1;
      ParseObjectsStep(data, pos, objects, i, next);
      ParseObjectsLaid(data, next, objects, i + 1, end);
    }
  }

  /** Encoded objects are laid out one after another. */
  lemma {:induction false} EncodedObjectsLaid(data: seq<byte>, pos: nat, objects: seq<KObject>, i: nat, end: nat)
    requires i <= |objects| && ObjectsFit(objects[i..]) && At(data, pos, EncodeObjects(objects[i..]))
    requires end == pos + |EncodeObjects(objects[i..])|
    ensures end <= |data| && ObjectsLaid(data, pos, objects, i, end)
    decreases |objects| - i
  {
    if i == |objects| {
      assert objects[i..] == [];
    } else {
      var next := EncodedObjectStep(data, pos, objects, i, end);
      EncodedObjectsLaid(data, next, objects, i + 1, end);
      ObjectsLaidStep(data, pos, objects, i, next, end);
    }
  }

  /** Object i of an encoded list decodes in place, and the rest of the list
      is encoded where it ends. */
  lemma EncodedObjectStep(data: seq<byte>, pos: nat, objects: seq<KObject>, i: nat, end: nat) returns (next: nat)
    requires i < |objects| && ObjectsFit(objects[i..]) && At(data, pos, EncodeObjects(objects[i..]))
    requires end == pos + |EncodeObjects(objects[i..])|
    ensures pos <= next <= |data| && ObjectAt(data, pos) == Success((objects[i], next))
    ensures ObjectsFit(objects[i + 1..]) && At(data, next, EncodeObjects(objects[i + 1..]))
    ensures end == next + |EncodeObjects(objects[i + 1..])|
  {
    next := pos + |EncodeObject(objects[i])|;
    ObjectsSplit(data, pos, objects, i);
    ObjectAtEncoded(data, pos, objects[i]);
  }

  lemma ParseTailEncoded(data: seq<byte>, pos: nat, k: KTest)
    requires Encodable(k) && At(data, pos, EncodeTail(k))
    ensures ParseTail(data, pos, k.version, k.args) == Success(k)
  {
    var p := pos + |EncodeSymArgs(k)|;
    AtSplit(data, pos, EncodeSymArgs(k), EncodeInt(|k.objects|) + EncodeObjects(k.objects));
    SymArgsEncoded(data, pos, k);
    ObjectListEncoded(data, p, k.objects, p + 4 + |EncodeObjects(k.objects)|);
    assert Count(|k.objects|) == |k.objects|;
  }

  lemma SymArgsEncoded(data: seq<byte>, pos: nat, k: KTest)
    requires Encodable(k) && At(data, pos, EncodeSymArgs(k))
    ensures ParseSymArgs(data, pos, k.version) == Success(((k.symArgvs, k.symArgvLen), pos + |EncodeSymArgs(k)|))
  {
    if k.version >= 2 {
      AtSplit(data, pos, EncodeInt(k.symArgvs), EncodeInt(k.symArgvLen));
      IntAtEncoded(data, pos, k.symArgvs);
      IntAtEncoded(data, pos + 4, k.symArgvLen);
    }
  }

  /** The object count followed by the objects. */
  lemma ObjectListEncoded(data: seq<byte>, pos: nat, objects: seq<KObject>, end: nat)
    requires |objects| < Two31 && ObjectsFit(objects) && At(data, pos, EncodeInt(|objects|) + EncodeObjects(objects))
    requires end == pos + 4 + |EncodeObjects(objects)|
    ensures IntAt(data, pos) == Success((|objects|, pos + 4))
    ensures end <= |data| && ParseObjects(data, pos + 4, |objects|, []) == Success((objects, end))
  {
    AtSplit(data, pos, EncodeInt(|objects|), EncodeObjects(objects));
    IntAtEncoded(data, pos, |objects|);
    ObjectsEncodedFromStart(data, pos + 4, objects, end);
  }

  lemma ObjectsEncodedFromStart(data: seq<byte>, pos: nat, objects: seq<KObject>, end: nat)
    requires ObjectsFit(objects) && At(data, pos, EncodeObjects(objects))
    requires end == pos + |EncodeObjects(objects)|
    ensures end <= |data| && ParseObjects(data, pos, |objects|, []) == Success((objects, end))
  {
    EncodedObjectsLaidFromStart(data, pos, objects, end);
    ParseObjectsLaidFromStart(data, pos, objects, end);
  }

  lemma EncodedObjectsLaidFromStart(data: seq<byte>, pos: nat, objects: seq<KObject>, end: nat)
    requires ObjectsFit(objects) && At(data, pos, EncodeObjects(objects))
    requires end == pos + |EncodeObjects(objects)|
    ensures end <= |data| && ObjectsLaid(data, pos, objects, 0, end)
  {
    assert objects[0..] == objects;
    EncodedObjectsLaid(data, pos, objects, 0, end);
  }

  lemma ParseObjectsLaidFromStart(data: seq<byte>, pos: nat, objects: seq<KObject>, end: nat)
    requires pos <= |data| && ObjectsLaid(data, pos, objects, 0, end)
    ensures ParseObjects(data, pos, |objects|, []) == Success((objects, end))
  {
    assert objects[..0] == [];
    ParseObjectsLaid(data, pos, objects, 0, end);
  }

  /**
    Decoding a file that begins with the encoding of an acceptable test case
    gives that test case back, under either magic and whatever follows it.
   */
  lemma ParseEncoded(data: seq<byte>, k: KTest, magic: seq<byte>)
    requires Encodable(k) && (magic == KTestMagic || magic == BoutMagic)
    requires At(data, 0, Encode(k, magic))
    ensures Parse(data) == Success(k)
  {
    var end := EncodedParts(data, k, magic);
    ParseThroughTail(data, k, end);
  }

  /** Each part of an encoded file reads back on its own. */
  lemma EncodedParts(data: seq<byte>, k: KTest, magic: seq<byte>) returns (end: nat)
    requires Encodable(k) && (magic == KTestMagic || magic == BoutMagic)
    requires At(data, 0, Encode(k, magic))
    ensures GoodMagic(data)
    ensures IntAt(data, 5) == Success((k.version, 9))
    ensures IntAt(data, 9) == Success((|k.args|, 13))
    ensures ParseArgs(data, 13, |k.args|, []) == Success((k.args, end))
    ensures end <= |data| && ParseTail(data, end, k.version, k.args) == Success(k)
  {
    MagicThenBody(data, k, magic);
    end := BodyEncoded(data, k);
  }

  /** An encoded file starts with its magic, and its body follows at position 5. */
  lemma MagicThenBody(data: seq<byte>, k: KTest, magic: seq<byte>)
    requires Encodable(k) && (magic == KTestMagic || magic == BoutMagic)
    requires At(data, 0, Encode(k, magic))
    ensures GoodMagic(data) && At(data, 5, EncodeBody(k))
  {
    AtSplit(data, 0, magic, EncodeBody(k));
    assert data[..5] == magic by {
      AtIsSlice(data, 0, magic);
      assert data[..5] == data[0..5];
    }
  }

  /** Parse reads the header, the arguments and then the tail. */
  lemma ParseThroughTail(data: seq<byte>, k: KTest, end: nat)
    requires GoodMagic(data) && k.version <= MaxVersion
    requires IntAt(data, 5) == Success((k.version, 9))
    requires IntAt(data, 9) == Success((|k.args|, 13))
    requires ParseArgs(data, 13, |k.args|, []) == Success((k.args, end))
    requires end <= |data| && ParseTail(data, end, k.version, k.args) == Success(k)
    ensures Parse(data) == Success(k)
  {
    ParseThroughArgs(data, k.version, k.args, end);
  }

  /** The header counts, the arguments and the tail of an encoded body all read back. */
  lemma BodyEncoded(data: seq<byte>, k: KTest) returns (end: nat)
    requires Encodable(k) && At(data, 5, EncodeBody(k))
    ensures IntAt(data, 5) == Success((k.version, 9))
    ensures IntAt(data, 9) == Success((|k.args|, 13))
    ensures ParseArgs(data, 13, |k.args|, []) == Success((k.args, end))
    ensures end <= |data| && ParseTail(data, end, k.version, k.args) == Success(k)
  {
    CountsEncoded(data, k);
    end := ArgsAndTailEncoded(data, k);
  }

  /** Once the header and the arguments have been read, Parse goes on to the tail. */
  lemma ParseThroughArgs(data: seq<byte>, version: int, args: seq<string>, end: nat)
    requires GoodMagic(data) && version <= MaxVersion
    requires IntAt(data, 5) == Success((version, 9))
    requires IntAt(data, 9) == Success((|args|, 13))
    requires ParseArgs(data, 13, |args|, []) == Success((args, end))
    ensures end <= |data| && Parse(data) == ParseTail(data, end, version, args)
  {
    assert Count(|args|) == |args|;
  }

  lemma CountsEncoded(data: seq<byte>, k: KTest)
    requires Encodable(k) && At(data, 5, EncodeBody(k))
    ensures IntAt(data, 5) == Success((k.version, 9))
    ensures IntAt(data, 9) == Success((|k.args|, 13))
    ensures At(data, 13, EncodeArgs(k.args) + EncodeTail(k))
  {
    var rest := EncodeArgs(k.args) + EncodeTail(k);
    AtSplit(data, 5, EncodeInt(k.version), EncodeInt(|k.args|) + rest);
    IntAtEncoded(data, 5, k.version);
    AtSplit(data, 9, EncodeInt(|k.args|), rest);
    IntAtEncoded(data, 9, |k.args|);
  }

  lemma ArgsAndTailEncoded(data: seq<byte>, k: KTest) returns (end: nat)
    requires Encodable(k) && At(data, 13, EncodeArgs(k.args) + EncodeTail(k))
    ensures ParseArgs(data, 13, |k.args|, []) == Success((k.args, end))
    ensures end <= |data| && ParseTail(data, end, k.version, k.args) == Success(k)
  {
    end := 13 + |EncodeArgs(k.args)|;
    AtSplit(data, 13, EncodeArgs(k.args), EncodeTail(k));
    ArgsEncodedFromStart(data, k.args);
    ParseTailEncoded(data, end, k);
  }

  lemma ArgsEncodedFromStart(data: seq<byte>, args: seq<string>)
    requires ArgsFit(args) && At(data, 13, EncodeArgs(args))
    ensures ParseArgs(data, 13, |args|, []) == Success((args, 13 + |EncodeArgs(args)|))
  {
    var end := 13 + |EncodeArgs(args)|;
    EncodedArgsLaidFromStart(data, args, end);
    ParseArgsLaidFromStart(data, args, end);
  }

  lemma EncodedArgsLaidFromStart(data: seq<byte>, args: seq<string>, end: nat)
    requires ArgsFit(args) && At(data, 13, EncodeArgs(args))
    requires end == 13 + |EncodeArgs(args)|
    ensures end <= |data| && ArgsLaid(data, 13, args, 0, end)
  {
    assert args[0..] == args;
    EncodedArgsLaid(data, 13, args, 0, end);
  }

  lemma ParseArgsLaidFromStart(data: seq<byte>, args: seq<string>, end: nat)
    requires 13 <= |data| && ArgsLaid(data, 13, args, 0, end)
    ensures ParseArgs(data, 13, |args|, []) == Success((args, end))
  {
    assert args[..0] == [];
    ParseArgsLaid(data, 13, args, 0, end);
  }

  // ---------------------------------------------------------------------------
  // The program name
  // ---------------------------------------------------------------------------

  /** `os.path.basename`: what follows the last '/'. */
  function Basename(path: string): (name: string)
    ensures |name| <= |path| && name == path[|path| - |name|..]
    ensures '/' !in name
    ensures |name| < |path| ==> path[|path| - |name| - 1] == '/'
  {
    path[NameStart(path)..]
  }

  /** Where the last component of the path begins: just after its last '/'. */
  function NameStart(path: string): (i: nat)
    ensures i <= |path|
    ensures '/' !in path[i..]
    ensures i > 0 ==> path[i - 1] == '/'
  {
    if path == [] then 0
    else if path[|path| - 1] == '/' then |path|
    else
      var i := NameStart(path[..|path| - 1]);
      assert path[i..] == path[..|path| - 1][i..] + [path[|path| - 1]];
      i
  }

  /** The name of the program that generated the test: the base name of the
      first argument, without a trailing ".bc". */
  function ProgramName(k: KTest): (name: string)
    requires k.args != []
    ensures '/' !in name
    ensures HasBcSuffix(Basename(k.args[0])) ==> name + ".bc" == Basename(k.args[0])
    ensures !HasBcSuffix(Basename(k.args[0])) ==> name == Basename(k.args[0])
  {
    WithoutBc(Basename(k.args[0]))
  }

  /** The name ends in ".bc". */
  predicate HasBcSuffix(base: string) {
    |base| >= 3 && base[|base| - 3..] == ".bc"
  }

  /** A name without its ".bc" extension, if it has one. */
  function WithoutBc(base: string): (name: string)
    ensures HasBcSuffix(base) ==> name + ".bc" == base
    ensures !HasBcSuffix(base) ==> name == base
    ensures '/' !in base ==> '/' !in name
  {
    if HasBcSuffix(base) then
      var name := base[..|base| - 3];
      assert base == name + ".bc";
      name
    else base
  }

  // ---------------------------------------------------------------------------
  // The sequential reader
  // ---------------------------------------------------------------------------

  /** An open file: its bytes and the position of the next read. */
  class Reader {
    const data: seq<byte>
    var pos: nat

    constructor (data: seq<byte>)
      ensures this.data == data && pos == 0
    {
      this.data := data;
      pos := 0;
    }

    /** `f.read(n)`: a refused length leaves the position where it was. */
    method Read(n: int) returns (r: Result<seq<byte>, KTestError>)
      requires pos <= |data|
      modifies this
      ensures pos <= |data|
      ensures match ReadBytes(data, old(pos), n)
        case Success(v) => r == Success(v.0) && pos == v.1
        case Failure(e) => r == Failure(e) && pos == old(pos)
    {
      if n < -1 {
        return Failure(BadReadLength);
      }
      var end := if n == -1 || pos + n > |data| then |data| else pos + n;
      r := Success(data[pos..end]);
      pos := end;
    }

    /** `f.read(n)` with a count the source fixes, which is never refused. */
    method ReadCount(n: nat) returns (chunk: seq<byte>)
      requires pos <= |data|
      modifies this
      ensures ReadBytes(data, old(pos), n) == Success((chunk, pos))
    {
      var end := if pos + n > |data| then |data| else pos + n;
      chunk := data[pos..end];
      pos := end;
    }

    /** `struct.unpack('>i', f.read(4))`. */
    method ReadInt() returns (r: Result<int, KTestError>)
      requires pos <= |data|
      modifies this
      ensures pos <= |data|
      ensures match IntAt(data, old(pos))
        case Success(v) => r == Success(v.0) && pos == v.1
        case Failure(e) => r == Failure(e)
    {
      var b := ReadCount(4);
      if |b| != 4 {
        return Failure(Truncated);
      }
      return Success(DecodeInt(b));
    }

    /** Argument number `index`: its size, then its ASCII bytes. */
    method ReadArg(index: nat) returns (r: Result<string, KTestError>)
      requires pos <= |data|
      modifies this
      ensures pos <= |data|
      ensures match ArgAt(data, old(pos), index)
        case Success(v) => r == Success(v.0) && pos == v.1
        case Failure(e) => r == Failure(e)
    {
      var size :- ReadInt();
      var bytes :- Read(size);
      if !IsAscii(bytes) {
        return Failure(NotAscii(index));
      }
      return Success(AsciiDecode(bytes));
    }

    /** The loop `for i in range(n)` over the arguments. */
    method ReadArgs(n: int) returns (r: Result<seq<string>, KTestError>)
      requires pos <= |data|
      modifies this
      ensures pos <= |data|
      ensures match ParseArgs(data, old(pos), Count(n), [])
        case Success(v) => r == Success(v.0) && pos == v.1
        case Failure(e) => r == Failure(e)
    {
      var args: seq<string> := [];
      var i := 0;
      ghost var left := Count(n);
      while i < n
        invariant old(pos) <= pos <= |data| && left == Count(n) - i && |args| == i
        invariant ParseArgs(data, old(pos), Count(n), []) == ParseArgs(data, pos, left, args)
        decreases left
      {
        ghost var before := pos;
        var a := ReadArg(i);
        ParseArgsNext(data, before, left, args);
        if a.Failure? {
          return Failure(a.error);
        }
        args := args + [a.value];
        i := i + 1;
        left := left - 1;
      }
      return Success(args);
    }

    /** `symArgvs` and `symArgvLen`, read from version 2 on. */
    method ReadSymArgs(version: int) returns (r: Result<(int, int), KTestError>)
      requires pos <= |data|
      modifies this
      ensures pos <= |data|
      ensures match ParseSymArgs(data, old(pos), version)
        case Success(v) => r == Success(v.0) && pos == v.1
        case Failure(e) => r == Failure(e)
    {
      if version >= 2 {
        var symArgvs :- ReadInt();
        var symArgvLen :- ReadInt();
        return Success((symArgvs, symArgvLen));
      }
      return Success((0, 0));
    }

    /** One object: its name, then its contents. */
    method ReadObject() returns (r: Result<KObject, KTestError>)
      requires pos <= |data|
      modifies this
      ensures pos <= |data|
      ensures match ObjectAt(data, old(pos))
        case Success(v) => r == Success(v.0) && pos == v.1
        case Failure(e) => r == Failure(e)
    {
      var nameSize :- ReadInt();
      var name :- Read(nameSize);
      var size :- ReadInt();
      var bytes :- Read(size);
      return Success(KObject(name, bytes));
    }

    /** The loop `for i in range(n)` over the objects. */
    method ReadObjects(n: int) returns (r: Result<seq<KObject>, KTestError>)
      requires pos <= |data|
      modifies this
      ensures pos <= |data|
      ensures match ParseObjects(data, old(pos), Count(n), [])
        case Success(v) => r == Success(v.0) && pos == v.1
        case Failure(e) => r == Failure(e)
    {
      var objects: seq<KObject> := [];
      var j := 0;
      ghost var left := Count(n);
      while j < n
        invariant old(pos) <= pos <= |data| && left == Count(n) - j && |objects| == j
        invariant ParseObjects(data, old(pos), Count(n), []) == ParseObjects(data, pos, left, objects)
        decreases left
      {
        ghost var before := pos;
        var o := ReadObject();
        ParseObjectsNext(data, before, left, objects);
        if o.Failure? {
          return Failure(o.error);
        }
        objects := objects + [o.value];
        j := j + 1;
        left := left - 1;
      }
      return Success(objects);
    }
  }

  /** `KTest.fromfile` on the bytes of the file. */
  method FromBytes(data: seq<byte>) returns (r: Result<KTest, KTestError>)
    ensures r == Parse(data)
  {
    var f := new Reader(data);
    var hdr := f.ReadCount(5);
    if |hdr| != 5 || (hdr != KTestMagic && hdr != BoutMagic) {
      return Failure(UnrecognizedFile);
    }
    assert hdr == data[..5];
    var version :- f.ReadInt();
    if version > MaxVersion {
      return Failure(UnrecognizedVersion(version));
    }
    var numArgs :- f.ReadInt();
    var args :- f.ReadArgs(numArgs);
    ghost var tail := f.pos;
    assert Parse(data) == ParseTail(data, tail, version, args);
    var sym :- f.ReadSymArgs(version);
    var numObjects :- f.ReadInt();
    var objects :- f.ReadObjects(numObjects);
    if args == [] {
      return Failure(NoArgs);
    }
    return Success(KTest(version, args, sym.0, sym.1, objects));
  }
}
