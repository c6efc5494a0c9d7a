/** Intel Hex files of EEPROM images: the writer, and the reader that checks and loads them.

    A file is given as its lines; all lines end in a newline and are shorter than the line buffer.
  */
module IntelHex {
  import opened Bytes

  const MAXBUF := 524288
  const IHEXLENGTH := 0x20

  // ----- Hex digits -----

  function Digit(n: nat): char
    requires n < 16
  {
    "0123456789ABCDEF"[n]
  }

  predicate IsHex(c: char)
  {
    '0' <= c <= '9' || 'A' <= c <= 'F' || 'a' <= c <= 'f'
  }

  function Value(c: char): (n: nat)
    requires IsHex(c)
    ensures n < 16
  {
    if '0' <= c <= '9' then c as int - '0' as int
    else if 'A' <= c <= 'F' then c as int - 'A' as int + 10
    else c as int - 'a' as int + 10
  }

  lemma {:induction false} DigitValue(n: nat)
    requires n < 16
    ensures IsHex(Digit(n)) && Value(Digit(n)) == n
  {
  }

  /** Two digits. */
  function Hex2(b: nat): string
    requires b < 256
  {
    [Digit(b / 16), Digit(b % 16)]
  }

  /** Four digits, or five when four are not enough. */
  function Hex4(w: nat): string
    requires w < 0x10_0000
  {
    if w < 0x1_0000 then Hex2(w / 256) + Hex2(w % 256)
    else [Digit(w / 0x1_0000)] + Hex2(w / 256 % 256) + Hex2(w % 256)
  }

  /** What scanning up to `width` hex digits gives: nothing, at the end of the line or not, or the
      value and how many digits it took. */
  datatype Scan = Failed(end: bool) | Found(value: nat, digits: nat)

  function ScanOn(line: string, at: nat, width: nat, value: nat, digits: nat): Scan
    decreases width
  {
    if width == 0 || at >= |line| || !IsHex(line[at]) then
      if digits == 0 then Failed(at >= |line|) else Found(value, digits)
    else ScanOn(line, at + 1, width - 1, 16 * value + Value(line[at]), digits + 1)
  }

  function ScanHex(line: string, at: nat, width: nat): Scan
  {
    ScanOn(line, at, width, 0, 0)
  }

  lemma {:induction false} Scan2(line: string, at: nat)
    requires at + 2 <= |line| && IsHex(line[at]) && IsHex(line[at + 1])
    ensures ScanHex(line, at, 2) == Found(16 * Value(line[at]) + Value(line[at + 1]), 2)
  {
    assert ScanOn(line, at + 1, 1, Value(line[at]), 1)
      == ScanOn(line, at + 2, 0, 16 * Value(line[at]) + Value(line[at + 1]), 2);
  }

  lemma {:induction false} Scan4(line: string, at: nat)
    requires at + 4 <= |line| && forall i :: at <= i < at + 4 ==> IsHex(line[i])
    ensures ScanHex(line, at, 4)
            == Found(
              4096 * Value(line[at]) + 256 * Value(line[at + 1]) + 16 * Value(line[at + 2]) + Value(line[at + 3]), 4)
  {
    var a, b, c, d := Value(line[at]), Value(line[at + 1]), Value(line[at + 2]), Value(line[at + 3]);
    assert ScanOn(line, at, 4, 0, 0) == ScanOn(line, at + 1, 3, a, 1);
    assert ScanOn(line, at + 1, 3, a, 1) == ScanOn(line, at + 2, 2, 16 * a + b, 2);
    assert ScanOn(line, at + 2, 2, 16 * a + b, 2) == ScanOn(line, at + 3, 1, 16 * (16 * a + b) + c, 3);
  }

  /** A byte written is a byte scanned. */
  lemma {:induction false} Hex2Scans(line: string, at: nat, b: nat)
    requires b < 256 && at + 2 <= |line| && line[at..at + 2] == Hex2(b)
    ensures ScanHex(line, at, 2) == Found(b, 2) && IsHex(line[at]) && IsHex(line[at + 1])
  {
    assert line[at] == line[at..at + 2][0] && line[at + 1] == line[at..at + 2][1];
    DigitValue(b / 16);
    DigitValue(b % 16);
    Scan2(line, at);
  }

  /** So is an address of sixteen bits. */
  lemma {:induction false} Hex4Scans(line: string, at: nat, w: nat)
    requires w < 0x1_0000 && at + 4 <= |line| && line[at..at + 4] == Hex4(w)
    ensures ScanHex(line, at, 4) == Found(w, 4)
  {
    assert line[at..at + 2] == line[at..at + 4][..2] == Hex2(w / 256);
    assert line[at + 2..at + 4] == line[at..at + 4][2..] == Hex2(w % 256);
    Hex2Digits(line, at, w / 256);
    Hex2Digits(line, at + 2, w % 256);
    Scan4(line, at);
  }

  lemma {:induction false} Hex2Digits(line: string, at: nat, b: nat)
    requires b < 256 && at + 2 <= |line| && line[at..at + 2] == Hex2(b)
    ensures IsHex(line[at]) && IsHex(line[at + 1]) && Value(line[at]) == b / 16 && Value(line[at + 1]) == b % 16
  {
    assert line[at] == line[at..at + 2][0] && line[at + 1] == line[at..at + 2][1];
    DigitValue(b / 16);
    DigitValue(b % 16);
  }

  // ----- Writing -----

  function SumOf(data: seq<byte>): nat
  {
    if data == [] then 0 else SumOf(data[..|data| - 1]) + data[|data| - 1] as int
  }

  function HexBytes(data: seq<byte>): (h: string)
    ensures |h| == 2 * |data|
  {
    if data == [] then "" else HexBytes(data[..|data| - 1]) + Hex2(data[|data| - 1])
  }

  /** The checksum byte that makes all bytes of a record add up to nothing. */
  function Checksum(sum: nat): byte
  {
    (0x100 - sum) % 256
  }

  /** All bytes of a record, the checksum among them, add up to 0 modulo 256. */
  lemma {:induction false} ChecksumIs(sum: nat)
    ensures (sum + Checksum(sum) as int) % 256 == 0
  {
  }

  lemma {:induction false} ChecksumDecides(sum: nat, lval: nat)
    ensures Checksum(sum) as int == lval <==> lval < 256 && (sum + lval) % 256 == 0
  {
  }

  /** The line for the bytes `data` at address `cc`. */
  function Record(cc: nat, data: seq<byte>): string
    requires cc < 0x10_0000 && |data| < 256
  {
    ":" + (Hex2(|data|) + (Hex4(cc)
      + ("00" + (HexBytes(data) + Hex2(Checksum(|data| + cc / 256 + cc % 256 + SumOf(data)))))))
  }

  lemma {:induction false} TwoBytes()
    ensures HexBytes([0x0a, 0xbc]) == "0ABC" && SumOf([0x0a, 0xbc]) == 0xc6
  {
    var data: seq<byte> := [0x0a, 0xbc];
    assert data[..1] == [0x0a] && data[..1][..0] == [];
    assert Hex2(0x0a) == "0A" && Hex2(0xbc) == "BC";
    assert HexBytes(data[..1]) == HexBytes([]) + Hex2(0x0a);
    assert SumOf(data[..1]) == SumOf([]) + 0x0a;
  }

  /** A record: two bytes at address 0x1f3. */
  lemma {:induction false} OneRecord()
    ensures Record(0x1f3, [0x0a, 0xbc]) == ":0201F3000ABC44"
  {
    hide HexBytes, SumOf, Hex2;
    TwoBytes();
    assert Checksum(2 + 1 + 0xf3 + 0xc6) == 0x44;
    HeadDigits();
  }

  lemma {:induction false} HeadDigits()
    ensures Hex2(2) == "02" && Hex2(1) == "01" && Hex2(0xf3) == "F3" && Hex2(0x44) == "44"
  {
  }

  const LAST := ":00000001FF"

  /** The lines for the bytes from `cc` on. */
  function Print(image: seq<byte>, cc: nat): seq<string>
    requires |image| <= MAXBUF
    decreases |image| - cc
  {
    if cc >= |image| then [LAST]
    else [Record(cc, image[cc..cc + Min(|image| - cc, IHEXLENGTH)])] + Print(image, cc + Min(|image| - cc, IHEXLENGTH))
  }

  /** Writes the first `length` bytes. */
  method OutputIntelHex(ebuf: array<byte>, length: nat) returns (lines: seq<string>)
    requires length <= ebuf.Length <= MAXBUF
    ensures lines == Print(ebuf[..length], 0)
  {
    hide Record, Print;
    lines := [];
    var cc := 0;
    ghost var image := ebuf[..length];
    while cc < length
      invariant cc <= length && ebuf[..length] == image
      invariant Print(image, 0) == lines + Print(image, cc)
    {
      var ll := length - cc;
      if ll > IHEXLENGTH {
        ll := IHEXLENGTH;
      }
      var line := OutputRecord(ebuf, cc, ll);
      assert ebuf[cc..cc + ll] == image[cc..cc + ll];
      PrintNext(image, cc);
      assert (lines + [line]) + Print(image, cc + ll) == lines + ([line] + Print(image, cc + ll));
      lines := lines + [line];
      cc := cc + ll;
    }
    PrintNext(image, cc);
    lines := lines + [LAST];
  }

  lemma {:induction false} PrintNext(image: seq<byte>, cc: nat)
    requires |image| <= MAXBUF
    ensures cc >= |image| ==> Print(image, cc) == [LAST]
    ensures cc < |image| ==>
              var n := Min(|image| - cc, IHEXLENGTH);
              Print(image, cc) == [Record(cc, image[cc..cc + n])] + Print(image, cc + n)
  {
    hide Record;
  }

  method OutputRecord(ebuf: array<byte>, cc: nat, ll: nat) returns (line: string)
    requires cc + ll <= ebuf.Length <= MAXBUF && ll <= IHEXLENGTH
    ensures line == Record(cc, ebuf[cc..cc + ll])
  {
    hide Hex2, Hex4;
    var sum := ll + cc / 256 + cc % 256;
    var bytes: string := "";
    for i := 0 to ll
      invariant sum == ll + cc / 256 + cc % 256 + SumOf(ebuf[cc..cc + i])
      invariant bytes == HexBytes(ebuf[cc..cc + i])
    {
      assert ebuf[cc..cc + i + 1][..i] == ebuf[cc..cc + i];
      bytes := bytes + Hex2(ebuf[cc + i]);
      sum := sum + ebuf[cc + i] as int;
    }
    line := ":" + (Hex2(ll) + (Hex4(cc) + ("00" + (bytes + Hex2(Checksum(sum))))));
  }

  // ----- Reading -----

  /** What has been loaded: no error so far, the lowest address and the length from there, the
      buffer, and the number scanned last. */
  datatype Load = Load(ok: bool, start: nat, length: int, ebuf: seq<byte>, lval: nat)

  /** The number scanned last after `n` data bytes of a line: a failed scan leaves it. */
  function Scanned(line: string, n: nat, lval: nat): nat
  {
    if n == 0 then lval
    else match ScanHex(line, 9 + 2 * (n - 1), 2)
         case Found(v, _) => v
         case Failed(_) => Scanned(line, n - 1, lval)
  }

  function DataOf(line: string, n: nat, lval: nat): (data: seq<byte>)
    ensures |data| == n
  {
    if n == 0 then [] else DataOf(line, n - 1, lval) + [Low(Scanned(line, n, lval))]
  }

  /** The three numbers at the start of a record, if they are all there. */
  datatype Head = NoHead | Head(ll: nat, ladr: nat, lt: nat)

  function HeadOf(line: string): Head
  {
    match ScanHex(line, 1, 2)
    case Failed(_) => NoHead
    case Found(ll, n) =>
      match ScanHex(line, 1 + n, 4)
      case Failed(_) => NoHead
      case Found(ladr, m) =>
        match ScanHex(line, 1 + n + m, 2)
        case Failed(_) => NoHead
        case Found(lt, _) => Head(ll, ladr, lt)
  }

  predicate IsData(h: Head)
  {
    h.Head? && h.ladr + h.ll <= MAXBUF && h.lt == 0
  }

  /** Loads one line; a line that is no data record is passed over. */
  function ParseLine(line: string, l: Load): (r: Load)
    requires |l.ebuf| == MAXBUF
    ensures |r.ebuf| == MAXBUF
  {
    if |line| < 11 || line[0] != ':' then l.(ok := false)
    else if !IsData(HeadOf(line)) then l
    else
      var h := HeadOf(line);
      var data := DataOf(line, h.ll, l.lval);
      var start := Min(l.start, h.ladr);
      var length := if h.ladr + h.ll - start > l.length then h.ladr + h.ll - start else l.length;
      var check := ScanHex(line, 9 + 2 * h.ll, 2);
      var lval := if check.Found? then check.value else Scanned(line, h.ll, l.lval);
      Load(check != Failed(false) && Checksum(h.ll + h.ladr / 256 + h.ladr % 256 + h.lt + SumOf(data)) as int == lval,
           start, length, Overwrite(l.ebuf, h.ladr, data), lval)
  }

  /** Loads line after line up to the first error. */
  function Parse(lines: seq<string>, l: Load): (r: Load)
    requires |l.ebuf| == MAXBUF
    ensures |r.ebuf| == MAXBUF
    decreases lines
  {
    if lines == [] || !l.ok then l else Parse(lines[1..], ParseLine(lines[0], l))
  }

  function Fresh(ebuf: seq<byte>, lval: nat): Load
  {
    Load(true, MAXBUF, 0, ebuf, lval)
  }

  /** Reads a file into the buffer; `start` and `length` are those of what was loaded. */
  method InputIntelHex(lines: seq<string>, ebuf: array<byte>, garbage: nat) returns (ok: bool, start: nat, length: int)
    requires ebuf.Length == MAXBUF
    modifies ebuf
    ensures var l := Parse(lines, Fresh(old(ebuf[..]), garbage));
            ok == l.ok && start == l.start && length == l.length && ebuf[..] == l.ebuf
  {
    ok, start, length := true, MAXBUF, 0;
    var lval := garbage;
    var i := 0;
    ghost var all := Parse(lines, Fresh(ebuf[..], garbage));
    assert lines[0..] == lines;
    while i < |lines| && ok
      invariant i <= |lines|
      invariant Parse(lines[i..], Load(ok, start, length, ebuf[..], lval)) == all
    {
      assert lines[i..][0] == lines[i] && lines[i..][1..] == lines[i + 1..];
      ok, start, length, lval := InputLine(lines[i], ebuf, start, length, lval);
      i := i + 1;
    }
  }

  method InputLine(line: string, ebuf: array<byte>, hstart: nat, hlength: int, lval0: nat)
    returns (ok: bool, start: nat, length: int, lval: nat)
    requires ebuf.Length == MAXBUF
    modifies ebuf
    ensures Load(ok, start, length, ebuf[..], lval)
            == ParseLine(line, Load(true, hstart, hlength, old(ebuf[..]), lval0))
    ensures |line| < 11 || line[0] != ':' || !IsData(HeadOf(line)) ==>
              start == hstart && length == hlength && ebuf[..] == old(ebuf[..])
    ensures |line| < 11 || line[0] != ':' ==> !ok
    ensures |line| >= 11 && line[0] == ':' && IsData(HeadOf(line)) ==>
              var h := HeadOf(line);
              ok <==> ScanHex(line, 9 + 2 * h.ll, 2) != Failed(false) && lval < 256
                      && (h.ll + h.ladr / 256 + h.ladr % 256 + SumOf(DataOf(line, h.ll, lval0)) + lval) % 256 == 0
  {
    hide ScanHex, HeadOf, Checksum, DataOf, Scanned, SumOf, Overwrite;
    ok, start, length, lval := true, hstart, hlength, lval0;
    if |line| < 11 || line[0] != ':' {
      ok := false;
      return;
    }
    var h := HeadOf(line);
    if IsData(h) {
      var sum := h.ll + h.ladr / 256 + h.ladr % 256 + h.lt;
      if h.ladr < start {
        start := h.ladr;
      }
      var bytes;
      lval, bytes := InputData(line, ebuf, h.ladr, h.ll, lval);
      sum := sum + bytes;
      if h.ladr + h.ll - start > length {
        length := h.ladr + h.ll - start;
      }
      var check := ScanHex(line, 9 + 2 * h.ll, 2);
      if check.Found? {
        lval := check.value;
      }
      ChecksumDecides(sum, lval);
      if check == Failed(false) || Checksum(sum) as int != lval {
        ok := false;
      }
    }
  }

  /** The data bytes of a line, put into the buffer and added up. */
  method InputData(line: string, ebuf: array<byte>, ladr: nat, ll: nat, lval0: nat) returns (lval: nat, sum: nat)
    requires ladr + ll <= ebuf.Length
    modifies ebuf
    ensures ebuf[..] == Overwrite(old(ebuf[..]), ladr, DataOf(line, ll, lval0))
    ensures lval == Scanned(line, ll, lval0) && sum == SumOf(DataOf(line, ll, lval0))
  {
    hide ScanHex, Scanned, SumOf, DataOf, Overwrite;
    lval, sum := lval0, 0;
    ScannedNone(line, ebuf[..], ladr, lval0);
    for i := 0 to ll
      invariant lval == Scanned(line, i, lval0) && sum == SumOf(DataOf(line, i, lval0))
      invariant ebuf[..] == Overwrite(old(ebuf[..]), ladr, DataOf(line, i, lval0))
    {
      var s := ScanHex(line, 9 + 2 * i, 2);
      if s.Found? {
        lval := s.value;
      }
      ScannedNext(line, i, lval0);
      OverwriteNext(old(ebuf[..]), ladr, DataOf(line, i, lval0), Low(lval));
      ghost var before := ebuf[..];
      ebuf[ladr + i] := Low(lval);
      assert ebuf[..] == before[ladr + i := Low(lval)];
      sum := sum + Low(lval) as int;
    }
  }

  lemma {:induction false} ScannedNone(line: string, buf: seq<byte>, at: nat, lval: nat)
    requires at <= |buf|
    ensures Scanned(line, 0, lval) == lval && SumOf(DataOf(line, 0, lval)) == 0
            && Overwrite(buf, at, DataOf(line, 0, lval)) == buf
  {
  }

  lemma {:induction false} OverwriteNext(buf: seq<byte>, at: nat, data: seq<byte>, x: byte)
    requires at + |data| < |buf|
    ensures Overwrite(buf, at, data)[at + |data| := x] == Overwrite(buf, at, data + [x])
  {
  }

  /** One more piece of an image in its place. */
  lemma {:induction false} OverwriteExtends(buf: seq<byte>, image: seq<byte>, cc: nat, n: nat)
    requires cc + n <= |image| <= |buf| && buf[..cc] == image[..cc]
    ensures Overwrite(buf, cc, image[cc..cc + n])[..cc + n] == image[..cc + n]
    ensures Overwrite(buf, cc, image[cc..cc + n])[|image|..] == buf[|image|..]
  {
  }

  lemma {:induction false} ScannedNext(line: string, i: nat, lval: nat)
    ensures var s := ScanHex(line, 9 + 2 * i, 2);
            Scanned(line, i + 1, lval) == if s.Found? then s.value else Scanned(line, i, lval)
    ensures DataOf(line, i + 1, lval) == DataOf(line, i, lval) + [Low(Scanned(line, i + 1, lval))]
    ensures SumOf(DataOf(line, i + 1, lval)) == SumOf(DataOf(line, i, lval)) + Low(Scanned(line, i + 1, lval)) as int
  {
    hide ScanHex, Low;
    assert DataOf(line, i + 1, lval)[..i] == DataOf(line, i, lval);
  }

  // ----- Reading undoes writing -----

  lemma {:induction false} HexBytesAt(data: seq<byte>, i: nat)
    requires i < |data|
    ensures HexBytes(data)[2 * i..2 * i + 2] == Hex2(data[i])
    decreases |data|
  {
    hide Hex2;
    var rest := HexBytes(data[..|data| - 1]);
    if i < |data| - 1 {
      HexBytesAt(data[..|data| - 1], i);
      assert HexBytes(data)[2 * i..2 * i + 2] == rest[2 * i..2 * i + 2];
    }
  }

  /** A piece of text from `at` on. */
  predicate Text(line: string, at: nat, t: string)
  {
    at + |t| <= |line| && line[at..at + |t|] == t
  }

  lemma {:induction false} TextParts(line: string, at: nat, x: string, y: string)
    requires Text(line, at, x + y)
    ensures Text(line, at, x) && Text(line, at + |x|, y)
  {
    assert line[at..at + |x|] == line[at..at + |x + y|][..|x|] == x;
    assert line[at + |x|..at + |x| + |y|] == line[at..at + |x + y|][|x|..] == y;
  }

  function CheckOf(cc: nat, data: seq<byte>): byte
  {
    Checksum(|data| + cc / 256 + cc % 256 + SumOf(data))
  }

  /** Where the parts of a record are, its address taking `width` digits. */
  lemma {:induction false} RecordParts(cc: nat, data: seq<byte>, width: nat)
    requires cc < 0x10_0000 && |data| < 256 && width == |Hex4(cc)|
    ensures var line := Record(cc, data);
            && |line| >= 11 && line[0] == ':' && Text(line, 1, Hex2(|data|)) && Text(line, 3, Hex4(cc))
            && Text(line, 3 + width, "00") && Text(line, 5 + width, HexBytes(data))
            && Text(line, 5 + width + 2 * |data|, Hex2(CheckOf(cc, data)))
  {
    hide Hex2, Hex4, HexBytes, Text, Checksum, SumOf;
    var line, n, a, d, c := Record(cc, data), Hex2(|data|), Hex4(cc), HexBytes(data), Hex2(CheckOf(cc, data));
    TextAll(line);
    Hex2Length(|data|);
    Hex2Length(CheckOf(cc, data));
    TextParts(line, 0, ":", n + (a + ("00" + (d + c))));
    TextParts(line, 1, n, a + ("00" + (d + c)));
    TextParts(line, 3, a, "00" + (d + c));
    TextParts(line, 3 + width, "00", d + c);
    TextParts(line, 5 + width, d, c);
    Hex4Length(cc);
  }

  lemma {:induction false} TextAll(line: string)
    ensures Text(line, 0, line)
  {
  }

  lemma {:induction false} Hex2Length(b: nat)
    requires b < 256
    ensures |Hex2(b)| == 2
  {
  }

  lemma {:induction false} Hex4Length(w: nat)
    requires w < 0x10_0000
    ensures |Hex4(w)| == if w < 0x1_0000 then 4 else 5
  {
  }

  lemma {:induction false} SliceOf(line: string, lo: nat, hi: nat, k: nat)
    requires lo <= hi <= |line| && k + 2 <= hi - lo
    ensures line[lo + k..lo + k + 2] == line[lo..hi][k..k + 2]
  {
    var part, whole := line[lo + k..lo + k + 2], line[lo..hi][k..k + 2];
    assert part[0] == line[lo + k] == line[lo..hi][k] == whole[0];
    assert part[1] == line[lo + k + 1] == line[lo..hi][k + 1] == whole[1];
    assert part == [part[0], part[1]] && whole == [whole[0], whole[1]];
  }

  /** The data bytes of a record are scanned as they were written. */
  lemma {:induction false} DataScans(line: string, data: seq<byte>, n: nat, lval: nat)
    requires Text(line, 9, HexBytes(data)) && n <= |data|
    ensures DataOf(line, n, lval) == data[..n]
    decreases n
  {
    hide Hex2, ScanHex;
    if n > 0 {
      DataScans(line, data, n - 1, lval);
      HexBytesAt(data, n - 1);
      var at := 9 + 2 * (n - 1);
      var h := line[9..9 + 2 * |data|];
      assert h == HexBytes(data) && h[2 * (n - 1)..2 * (n - 1) + 2] == Hex2(data[n - 1]);
      SliceOf(line, 9, 9 + 2 * |data|, 2 * (n - 1));
      Hex2Scans(line, at, data[n - 1]);
      assert data[..n] == data[..n - 1] + [data[n - 1]];
    }
  }

  lemma {:induction false} ZeroScans(line: string, at: nat)
    requires Text(line, at, "00")
    ensures ScanHex(line, at, 2) == Found(0, 2)
  {
    assert Hex2(0) == "00";
    Hex2Scans(line, at, 0);
  }

  /** A record within sixteen bits of address loads its data where they came from. */
  lemma {:induction false} RecordLoads(cc: nat, data: seq<byte>, l: Load)
    requires cc < 0x1_0000 && |data| < 256 && |l.ebuf| == MAXBUF && l.ok
    ensures var start := Min(l.start, cc);
            var length := if cc + |data| - start > l.length then cc + |data| - start else l.length;
            ParseLine(Record(cc, data), l) == Load(true, start, length, Overwrite(l.ebuf, cc, data), CheckOf(cc, data))
  {
    hide Record, Hex2, Hex4, ScanHex, HexBytes, Checksum, SumOf, DataOf, Scanned, Overwrite;
    var line := Record(cc, data);
    Hex4Length(cc);
    RecordParts(cc, data, 4);
    Hex2Length(|data|);
    Hex2Scans(line, 1, |data|);
    Hex4Scans(line, 3, cc);
    ZeroScans(line, 7);
    assert HeadOf(line) == Head(|data|, cc, 0);
    DataScans(line, data, |data|, l.lval);
    assert data[..|data|] == data;
    Hex2Length(CheckOf(cc, data));
    Hex2Scans(line, 9 + 2 * |data|, CheckOf(cc, data));
  }

  lemma {:induction false} LastLine(l: Load)
    requires |l.ebuf| == MAXBUF
    ensures ParseLine(LAST, l) == l
  {
    assert LAST[1..3] == Hex2(0);
    Hex2Scans(LAST, 1, 0);
    assert LAST[3..7] == Hex4(0);
    Hex4Scans(LAST, 3, 0);
    assert LAST[7..9] == Hex2(1);
    Hex2Scans(LAST, 7, 1);
  }

  /** Behind sixteen bits an address has a digit too many, and is read as its first four. */
  lemma {:induction false} WideHead(cc: nat, data: seq<byte>)
    requires 0x1_0000 <= cc < MAXBUF && |data| < 256
    ensures var h := HeadOf(Record(cc, data)); h.Head? ==> h.ll == |data| && h.ladr == cc / 16
  {
    hide Record, Hex2, HexBytes, ScanHex;
    var line := Record(cc, data);
    Hex4Length(cc);
    RecordParts(cc, data, 5);
    Hex2Length(|data|);
    Hex2Scans(line, 1, |data|);
    WideScans(line, cc);
  }

  lemma {:induction false} WideScans(line: string, cc: nat)
    requires 0x1_0000 <= cc < MAXBUF && Text(line, 3, Hex4(cc))
    ensures ScanHex(line, 3, 4) == Found(cc / 16, 4)
  {
    var d, x, y := cc / 0x1_0000, cc / 256 % 256, cc % 256;
    hide Hex2, ScanHex, Digit, Value, IsHex;
    TextParts(line, 3, [Digit(d)] + Hex2(x), Hex2(y));
    TextParts(line, 3, [Digit(d)], Hex2(x));
    Hex2Length(x);
    Hex2Length(y);
    assert line[3] == line[3..4][0];
    DigitValue(d);
    Hex2Digits(line, 4, x);
    Hex2Digits(line, 6, y);
    Scan4(line, 3);
    WideValue(cc);
  }

  lemma {:induction false} WideValue(cc: nat)
    ensures 4096 * (cc / 0x1_0000) + 256 * (cc / 256 % 256 / 16) + 16 * (cc / 256 % 256 % 16) + cc % 256 / 16 == cc / 16
  {
    var a := cc / 256;
    assert a == 256 * (a / 256) + a % 256 && a / 256 == cc / 0x1_0000;
    assert cc == 256 * a + cc % 256;
  }

  /** Whatever is printed, no more than sixteen bits of address are ever loaded. */
  lemma {:induction false} NeverLonger(image: seq<byte>, cc: nat, l: Load)
    requires |image| <= MAXBUF && |l.ebuf| == MAXBUF && (cc % IHEXLENGTH == 0 || cc >= |image|)
    requires l.length <= 0x1_0000 && (cc > 0 ==> l.start == 0) && (cc == 0 ==> l.length == 0 && l.start == MAXBUF)
    ensures Parse(Print(image, cc), l).length <= 0x1_0000
    decreases |image| - cc
  {
    hide Record, Print, ParseLine, HeadOf;
    PrintNext(image, cc);
    if l.ok {
      if cc >= |image| {
        LastLine(l);
        assert [LAST][1..] == [];
      } else {
        var n := Min(|image| - cc, IHEXLENGTH);
        var data := image[cc..cc + n];
        var line := Record(cc, data);
        assert ([line] + Print(image, cc + n))[1..] == Print(image, cc + n);
        if cc < 0x1_0000 {
          RecordLoads(cc, data, l);
        } else {
          WideHead(cc, data);
          LineLength(line, l);
        }
        NeverLonger(image, cc + n, ParseLine(line, l));
      }
    }
  }

  lemma {:induction false} LineLength(line: string, l: Load)
    requires |l.ebuf| == MAXBUF && l.start == 0
    ensures var r, h := ParseLine(line, l), HeadOf(line);
            r.start == 0 && (r.length == l.length || (h.Head? && r.length == h.ladr + h.ll))
  {
    hide HeadOf, ScanHex, DataOf, Scanned, Checksum, SumOf;
  }

  /** The lines from `cc` on load the rest of the image. */
  lemma {:induction false} RestLoads(image: seq<byte>, cc: nat, l: Load)
    requires |image| <= 0x1_0000 && |l.ebuf| == MAXBUF && cc <= |image| && (cc % IHEXLENGTH == 0 || cc == |image|)
    requires l.ok && l.length == cc && l.start == (if cc == 0 then MAXBUF else 0) && l.ebuf[..cc] == image[..cc]
    ensures var r := Parse(Print(image, cc), l);
            && r.ok && r.length == |image| && r.start == (if image == [] then MAXBUF else 0)
            && r.ebuf[..|image|] == image && r.ebuf[|image|..] == l.ebuf[|image|..]
    decreases |image| - cc
  {
    hide Record, Print, ParseLine, Overwrite, CheckOf;
    PrintNext(image, cc);
    if cc >= |image| {
      LastLine(l);
      assert [LAST][1..] == [] && image[..cc] == image;
    } else {
      var n := Min(|image| - cc, IHEXLENGTH);
      var data := image[cc..cc + n];
      var line := Record(cc, data);
      assert ([line] + Print(image, cc + n))[1..] == Print(image, cc + n);
      RecordLoads(cc, data, l);
      var m := ParseLine(line, l);
      OverwriteExtends(l.ebuf, image, cc, n);
      RestLoads(image, cc + n, m);
    }
  }

  /** Reading a written file gives back the image, with its length and start, exactly when the
      image is not empty and its addresses fit sixteen bits. */
  lemma {:induction false} HexRoundTrip(image: seq<byte>, ebuf: seq<byte>, garbage: nat)
    requires |image| <= MAXBUF == |ebuf|
    ensures var l := Parse(Print(image, 0), Fresh(ebuf, garbage));
            (l.ok && l.start == 0 && l.length == |image| && l.ebuf[..|image|] == image) <==> 1 <= |image| <= 0x1_0000
  {
    hide Parse, Print;
    if |image| <= 0x1_0000 {
      RestLoads(image, 0, Fresh(ebuf, garbage));
    } else {
      NeverLonger(image, 0, Fresh(ebuf, garbage));
    }
  }
}
