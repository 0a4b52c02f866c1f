/** The authorized-key line of line 66,
    `ssh-ed25519 <base64 of the blob> CN=SSH key` and a newline, and the whole
    DER-to-line pipeline of lines 26-66. */
module KeyLine {
  import opened Bytes
  import Locator
  import SshBlob
  import Base64

  const KeyTypeText: string := "ssh-ed25519"

  /** The fixed comment of line 12. */
  const Comment: string := "CN=SSH key"

  /** Line 66: key type, a space, the base64 blob, a space, the comment and a
      newline. */
  function AuthorizedKeyLine(key: seq<byte>): (line: string)
    requires |key| == Locator.KeySize
    ensures |line| == 92
    ensures line[..12] == KeyTypeText + " " && line[80..] == " " + Comment + "\n"
    ensures line[12..80] == Base64.Encode(SshBlob.Blob(key))
    ensures forall i :: 12 <= i < 80 ==> Base64.IsAlphabet(line[i])
  {
    SshBlob.BlobLayout(key);
    var b64blob := Base64.Encode(SshBlob.Blob(key));
    var line := KeyTypeText + " " + b64blob + " " + Comment + "\n";
    assert line[12..80] == b64blob;
    line
  }

  /** The line's key-type word and the blob's type `string` are the same
      name: same length, and each character's code is the matching byte. */
  lemma KeyTypeTextIsKeyTypeName()
    ensures |KeyTypeText| == |SshBlob.KeyTypeName|
    ensures forall i :: 0 <= i < |KeyTypeText| ==> KeyTypeText[i] as int == SshBlob.KeyTypeName[i] as int
  {
  }

  /** Reads a line of that shape back to the key it carries: the fixed
      prefix and suffix, a middle that decodes as base64 into a blob, and a
      blob whose key type is "ssh-ed25519". */
  function ParseAuthorizedKeyLine(line: string): Option<seq<byte>>
  {
    if |line| < 24 || line[..12] != KeyTypeText + " " || line[|line| - 12..] != " " + Comment + "\n"
    then None
    else
      match Base64.Decode(line[12..|line| - 12])
      case None => None
      case Some(blob) =>
        match SshBlob.ParseBlob(blob)
        case None => None
        case Some((keyType, key)) => if keyType == SshBlob.KeyTypeName then Some(key) else None
  }

  /** The written line reads back to exactly the key it was made from. */
  lemma LineRoundTrip(key: seq<byte>)
    requires |key| == Locator.KeySize
    ensures ParseAuthorizedKeyLine(AuthorizedKeyLine(key)) == Some(key)
  {
    var line := AuthorizedKeyLine(key);
    Base64.DecodeEncode(SshBlob.Blob(key));
    SshBlob.BlobRoundTrip(key);
  }

  /** Lines 26-66 on the DER bytes: the extracted key's authorized-key line,
      or the extractor's error. */
  function Run(der: seq<byte>): Result<string>
  {
    match Locator.Extract(der)
    case Err(e) => Err(e)
    case Ok(key) => Ok(AuthorizedKeyLine(key))
  }

  /** The pipeline fails exactly as the extractor does, and a line it writes
      carries the extracted key. */
  lemma RunCarriesExtractedKey(der: seq<byte>)
    ensures Run(der).Err? <==> Locator.Extract(der).Err?
    ensures Run(der).Err? ==> Run(der).error == Locator.Extract(der).error
    ensures Run(der).Ok? ==>
              ParseAuthorizedKeyLine(Run(der).value) == Some(Locator.Extract(der).value)
  {
    if Locator.Extract(der).Ok? {
      LineRoundTrip(Locator.Extract(der).value);
    }
  }

  /** A minimal buffer `06 03 2B 65 70 03 21 00 <key>` becomes the line
      `ssh-ed25519 <base64(00 00 00 0B "ssh-ed25519" 00 00 00 20 key)> CN=SSH key`. */
  lemma MinimalBufferLine(key: seq<byte>)
    requires |key| == Locator.KeySize
    ensures Run(Locator.Oid + [0x03, 0x21, 0x00] + key) ==
              Ok(KeyTypeText + " "
                 + Base64.Encode([0, 0, 0, 11] + SshBlob.KeyTypeName + [0, 0, 0, 32] + key)
                 + " " + Comment + "\n")
  {
    Locator.MinimalBuffer(key);
    SshBlob.BlobLayout(key);
  }
}
