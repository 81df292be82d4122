/** Types and big-endian readers shared by the wire parsers. */
module Base {
  /** The most bytes of a TCP connection the sniffer retains. */
  const MAX_BYTES: nat := 32 * 1024

  type Byte = b: int | 0 <= b < 256
  type Bytes = seq<Byte>

  datatype Option<+T> = None | Some(value: T)

  datatype SocketAddr = SocketAddr(v6: bool, ip: nat, port: nat)

  datatype Result<+T, +E> = Ok(value: T) | Err(error: E)

  ghost predicate Distinct<T(!new)>(items: seq<T>)
  {
    forall i, j :: 0 <= i < j < |items| ==> items[i] != items[j]
  }

  lemma Associate<T>(a: seq<T>, b: seq<T>, c: seq<T>)
    ensures a + (b + c) == (a + b) + c
    ensures a + [] == a && [] + a == a
  {
  }

  lemma Regroup<T>(a: seq<T>, b: seq<T>, c: seq<T>, d: seq<T>)
    ensures a + (b + c) + d == a + b + (c + d) == (a + b) + c + d
    ensures a + (b + c) == a + b + c
    ensures a + [] == a
  {
  }

  /** The value of a byte string read most significant byte first. */
  function BigEndian(bytes: Bytes): (value: nat)
  {
    if |bytes| == 0 then 0
    else BigEndian(bytes[..|bytes| - 1]) * 256 + bytes[|bytes| - 1]
  }

  function U16(high: Byte, low: Byte): (value: nat)
    ensures value < 0x1_0000
  {
    high * 256 + low
  }

  function U24(a: Byte, b: Byte, c: Byte): (value: nat)
    ensures value < 0x100_0000
  {
    a * 65536 + b * 256 + c
  }

  /** The two bytes that `U16` reads back as `value`. */
  function PutU16(value: nat): (bytes: Bytes)
    requires value < 0x1_0000
    ensures |bytes| == 2 && U16(bytes[0], bytes[1]) == value
  {
    [value / 256, value % 256]
  }

  function PutU24(value: nat): (bytes: Bytes)
    requires value < 0x100_0000
    ensures |bytes| == 3 && U24(bytes[0], bytes[1], bytes[2]) == value
  {
    var high, low := value / 256, value % 256;
    [high / 256, high % 256, low]
  }

  function Min(a: nat, b: nat): (m: nat)
    ensures m <= a && m <= b && (m == a || m == b)
  {
    if a <= b then a else b
  }

  function Max(a: nat, b: nat): (m: nat)
    ensures a <= m && b <= m && (m == a || m == b)
  {
    if a <= b then b else a
  }
}
