/** The OpenSSH public-key blob of line 63: `string "ssh-ed25519"` followed
    by `string key`, where each `string` is a uint32 big-endian length and
    then the bytes (RFC 4251 section 5, RFC 4253 section 6.6, RFC 8709
    section 4). `struct.pack(">I", n)` is the length encoder. */
module SshBlob {
  import opened Bytes

  /** `struct.pack(">I", n)` accepts exactly the n below this bound. */
  const U32Limit: nat := 0x1_0000_0000

  /** The key type name "ssh-ed25519" as ASCII bytes. */
  const KeyTypeName: seq<byte> :=
    [0x73, 0x73, 0x68, 0x2D, 0x65, 0x64, 0x32, 0x35, 0x35, 0x31, 0x39]

  /** The value of four bytes read as a big-endian unsigned integer. */
  function DecodeU32(b: seq<byte>): (n: nat)
    requires |b| == 4
    ensures n < U32Limit
  {
    b[0] as nat * 0x100_0000 + b[1] as nat * 0x1_0000 + b[2] as nat * 0x100 + b[3] as nat
  }

  /** `struct.pack(">I", n)`: four bytes, most significant first. */
  function EncodeU32(n: nat): (r: seq<byte>)
    requires n < U32Limit
    ensures |r| == 4 && DecodeU32(r) == n
  {
    var b0 := n / 0x100_0000;
    var b1 := (n / 0x1_0000) % 0x100;
    var b2 := (n / 0x100) % 0x100;
    var b3 := n % 0x100;
    assert n == b0 * 0x100_0000 + b1 * 0x1_0000 + b2 * 0x100 + b3;
    [b0 as byte, b1 as byte, b2 as byte, b3 as byte]
  }

  /** Every four-byte sequence is the encoding of its own value. */
  lemma EncodeDecodeU32(b: seq<byte>)
    requires |b| == 4
    ensures EncodeU32(DecodeU32(b)) == b
  {
    var n := DecodeU32(b);
    var r := EncodeU32(n);
    assert n / 0x100_0000 == b[0] as nat;
    assert (n / 0x1_0000) % 0x100 == b[1] as nat;
    assert (n / 0x100) % 0x100 == b[2] as nat;
    assert n % 0x100 == b[3] as nat;
  }

  /** An SSH `string`: uint32 length, then the bytes. */
  function SshString(data: seq<byte>): (r: seq<byte>)
    requires |data| < U32Limit
    ensures |r| == 4 + |data| && r[4..] == data
    ensures DecodeU32(r[..4]) == |data|
  {
    EncodeU32(|data|) + data
  }

  /** Reads one SSH `string` from the front of `s`, giving its bytes and what
      follows; None when `s` is too short for its length prefix or for the
      length it declares. */
  function ReadSshString(s: seq<byte>): Option<(seq<byte>, seq<byte>)>
  {
    if |s| < 4 then None
    else
      var n := DecodeU32(s[..4]);
      if |s| - 4 < n then None else Some((s[4..4 + n], s[4 + n..]))
  }

  /** Reading back a written `string` recovers its bytes and leaves the rest. */
  lemma ReadSshStringRoundTrip(data: seq<byte>, rest: seq<byte>)
    requires |data| < U32Limit
    ensures ReadSshString(SshString(data) + rest) == Some((data, rest))
  {
    var s := SshString(data) + rest;
    assert s[..4] == SshString(data)[..4];
    assert s[4..4 + |data|] == data;
    assert s[4 + |data|..] == rest;
  }

  /** Conversely, whatever is read was written that way. */
  lemma ReadSshStringInverse(s: seq<byte>)
    requires ReadSshString(s).Some?
    ensures |ReadSshString(s).value.0| < U32Limit
    ensures s == SshString(ReadSshString(s).value.0) + ReadSshString(s).value.1
  {
    var data := ReadSshString(s).value.0;
    EncodeDecodeU32(s[..4]);
    assert s == s[..4] + data + ReadSshString(s).value.1;
  }

  /** Line 63: `string "ssh-ed25519"` followed by `string key`. */
  function Blob(key: seq<byte>): seq<byte>
    requires |key| < U32Limit
  {
    SshString(KeyTypeName) + SshString(key)
  }

  /** For a 32-byte key the blob is
      `00 00 00 0B "ssh-ed25519" 00 00 00 20 key`, 51 bytes in all. */
  lemma BlobLayout(key: seq<byte>)
    requires |key| == 32
    ensures Blob(key) == [0, 0, 0, 11] + KeyTypeName + [0, 0, 0, 32] + key
    ensures |Blob(key)| == 51
  {
    assert EncodeU32(11) == [0, 0, 0, 11];
    assert EncodeU32(32) == [0, 0, 0, 32];
  }

  /** Reads a blob back: two SSH `string`s and nothing after them. */
  function ParseBlob(blob: seq<byte>): Option<(seq<byte>, seq<byte>)>
  {
    match ReadSshString(blob)
    case None => None
    case Some((keyType, rest)) =>
      match ReadSshString(rest)
      case None => None
      case Some((key, trailing)) => if trailing == [] then Some((keyType, key)) else None
  }

  /** Parsing the blob recovers "ssh-ed25519" and the key exactly. */
  lemma BlobRoundTrip(key: seq<byte>)
    requires |key| < U32Limit
    ensures ParseBlob(Blob(key)) == Some((KeyTypeName, key))
  {
    ReadSshStringRoundTrip(KeyTypeName, SshString(key));
    ReadSshStringRoundTrip(key, []);
    assert SshString(key) + [] == SshString(key);
  }

  /** Every blob that parses is the encoding of what it parses to. */
  lemma ParseBlobInverse(blob: seq<byte>)
    requires ParseBlob(blob).Some?
    ensures |ParseBlob(blob).value.0| < U32Limit && |ParseBlob(blob).value.1| < U32Limit
    ensures blob == SshString(ParseBlob(blob).value.0) + SshString(ParseBlob(blob).value.1)
  {
    ReadSshStringInverse(blob);
    var rest := ReadSshString(blob).value.1;
    ReadSshStringInverse(rest);
    assert rest == SshString(ParseBlob(blob).value.1) + [];
  }
}
