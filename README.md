# Ed25519 key extraction from an X.509 certificate, modelled in Dafny

`extract_ed25519_from_cert.py` turns an X.509 certificate that carries an
Ed25519 public key into an OpenSSH authorized-key line. It does not decode the
certificate. It scans the DER bytes for the id-Ed25519 object identifier
1.3.101.112 (RFC 8410, section 3), encoded as `06 03 2B 65 70`. It then looks
for the subjectPublicKey BIT STRING header `03 21` (tag 3, short-form length
33, ITU-T X.690 sections 8.6 and 8.1.3.4; RFC 5280 section 4.1.2.7). It skips
the unused-bits byte and slices out 32 key bytes. Finally it writes
`ssh-ed25519 <base64 blob> CN=SSH key`. The blob is `string "ssh-ed25519"`
followed by `string key`, where each `string` is a uint32 big-endian length
and then the bytes (RFC 4251 section 5, RFC 4253 section 6.6, RFC 8709
section 4).

The model has five modules, one file each:

- `Bytes` (`bytes.dfy`): the `byte` type, `Option`, and `Result`. `Result`
  carries `ExtractError`, whose four variants are the script's four fatal
  `sys.exit` calls on lines 29, 44, 50 and 59.
- `Locator` (`locator.dfy`): the extractor of lines 26-59.
  - `Find` is Python's `bytes.find`.
  - `FallbackScan` is the `for` loop with `break`, written as a method.
    `FirstQualifying` is its specification.
  - `KeyAt` models the bounds checks and the slice.
  - `Extract` is the whole step as a function. `ExtractPublicKey` runs the
    same steps in the script's order and is proved equal to `Extract`.
- `SshBlob` (`ssh_blob.dfy`): `struct.pack(">I", n)`, SSH `string`s, and the
  blob of line 63. It also has their parsers and the round trips.
- `Base64` (`base64.dfy`): the encoder of section 4 of RFC 4648 used on
  line 64, and a decoder proved to invert it.
- `KeyLine` (`key_line.dfy`): the line of line 66. It also has a parser that
  reads the key back, and `Run`, which is lines 26-66 end to end.

The model follows the code's quirks:

- The primary search for `03 21` starts at the OID's own first byte, not after
  it. It runs to the end of the buffer, not over a window. Because no byte
  pair inside the OID is `03 21`, the header it finds always lies at least 5
  bytes after the OID's start (`PrimaryAfterOid`).
- The fallback window also starts at the OID's first byte. The OID's second
  and third bytes are `03 2B`, and `0x2B = 43 >= 33`, so the fallback always
  selects `pos + 1`, inside the OID (`FallbackSelectsInsideOid`). Two things
  follow:
  - The "could not locate subjectPublicKey BIT STRING" exit can never be
    reached (`BitStringAlwaysLocated`).
  - On the fallback path the "key" is the 32 bytes that start at the OID's
    last byte `0x70`. Its "unused-bits byte" is the OID's `0x65`
    (`FallbackPath`).
- The unused-bits byte is read and then ignored (lines 51-54). On the primary
  path, overwriting it changes nothing (`UnusedBitsIgnored`).

The primary search is not limited to a window, and the fallback cannot fail.

## Model

| member | source | states |
|---|---|---|
| `Locator.Find` | extract_ed25519_from_cert.py:26-32 | `bytes.find`: the result is -1 exactly when the pattern occurs nowhere at or after `start`. Otherwise the pattern occurs at the result, which is at least `start`, and at no earlier index at or after `start`. |
| `Locator.FirstQualifying` | extract_ed25519_from_cert.py:36-42 | None exactly when no index of the window is a BIT STRING tag with length byte >= 33. Otherwise it is the first such index in the window. |
| `Locator.FallbackScan` | extract_ed25519_from_cert.py:34-42 | The loop sets `found` exactly when some index in `[pos, min(len-2, pos+300))` qualifies. `bsIdx` is then the first such index; otherwise `bsIdx` stays -1. |
| `Locator.KeyAt` | extract_ed25519_from_cert.py:46-59 | Success exactly when 35 bytes follow the header start, and the key is then `der[b+3 .. b+35]`, 32 bytes. "Invalid location" exactly when `b+2 >= len`. Otherwise a length error carrying `len-(b+3)`, which is less than 32. |
| `Locator.ExtractPublicKey` | extract_ed25519_from_cert.py:26-59 | The script's steps in order give `Extract(der)`. Any key they return has 32 bytes. |
| `Locator.OidAbsentIffNotFound` | extract_ed25519_from_cert.py:26-29 | The result is "OID not found" if and only if `06 03 2B 65 70` occurs nowhere in the buffer. |
| `Locator.NoHeaderInsideOid` | extract_ed25519_from_cert.py:26-32 | No index inside an OID occurrence starts a `03 21` pair. |
| `Locator.PrimaryAfterOid` | extract_ed25519_from_cert.py:31-32 | A header found by the primary search lies at least 5 bytes after the OID's start. |
| `Locator.FallbackSelectsInsideOid` | extract_ed25519_from_cert.py:34-42 | Whenever an OID occurs at `pos`, the fallback scan selects `pos + 1`. |
| `Locator.BitStringAlwaysLocated` | extract_ed25519_from_cert.py:43-44 | No input yields the "could not locate BIT STRING" error. |
| `Locator.PrimaryPath` | extract_ed25519_from_cert.py:26-59 | Suppose the OID first occurs at `pos`, and the first `03 21` at or after `pos` is at `b`. Then `b >= pos+5`. The result is `Ok(der[b+3..b+35])` when the buffer is long enough, "invalid location" when `b+2 == len`, and otherwise the length error with `len-(b+3)`. |
| `Locator.FallbackPath` | extract_ed25519_from_cert.py:33-59 | Suppose the OID first occurs at `pos`, and no `03 21` occurs at or after it. Then the result is `Ok(der[pos+4..pos+36])` or the length error with `len-(pos+4)`. The skipped unused-bits byte is `0x65`, and the key's first byte is `0x70`. |
| `Locator.UnusedBitsIgnored` | extract_ed25519_from_cert.py:51-54 | On the primary path, overwriting `der[b+2]` with any byte leaves the result unchanged. |
| `Locator.KeyAtIgnoresUnusedBits` | extract_ed25519_from_cert.py:51-57 | The bounds checks and the slice after a header at `b` do not depend on `der[b+2]`. |
| `Locator.FindStable` | extract_ed25519_from_cert.py:27 | A successful `find` keeps its result when the buffer changes only after the match. |
| `Locator.MinimalBuffer` | extract_ed25519_from_cert.py:26-59 | `06 03 2B 65 70 03 21 00 <key>` with a 32-byte key yields exactly `key`. |
| `Locator.TruncatedBuffer` | extract_ed25519_from_cert.py:56-59 | The same buffer with only `n < 32` key bytes yields the length error carrying `n`. |
| `SshBlob.DecodeU32` | extract_ed25519_from_cert.py:63 | Four big-endian bytes read as an integer below 2^32. |
| `SshBlob.EncodeU32` | extract_ed25519_from_cert.py:63 | `struct.pack(">I", n)` gives four bytes that read back as `n`. |
| `SshBlob.EncodeDecodeU32` | extract_ed25519_from_cert.py:63 | Every four bytes are the encoding of their own value, which is the other direction of the round trip. |
| `SshBlob.SshString` | extract_ed25519_from_cert.py:63 | A `string` is `4 + len` bytes: a prefix that reads as `len`, followed by the data. |
| `SshBlob.ReadSshStringRoundTrip` | extract_ed25519_from_cert.py:63 | Reading a written `string` recovers its bytes and leaves what follows. |
| `SshBlob.ReadSshStringInverse` | extract_ed25519_from_cert.py:63 | Whatever is read as a `string` was written as one. |
| `SshBlob.BlobLayout` | extract_ed25519_from_cert.py:62-63 | For a 32-byte key the blob is `00 00 00 0B "ssh-ed25519" 00 00 00 20 key`, 51 bytes. |
| `SshBlob.BlobRoundTrip` | extract_ed25519_from_cert.py:62-63 | Parsing the blob recovers "ssh-ed25519" and the key exactly. |
| `SshBlob.ParseBlobInverse` | extract_ed25519_from_cert.py:62-63 | Every blob that parses is the two `string`s it parses to. |
| `Base64.SextetValue` | extract_ed25519_from_cert.py:64 | A character's 6-bit value, when defined, maps back to the same alphabet character. |
| `Base64.SextetValueOfSextet` | extract_ed25519_from_cert.py:64 | The alphabet is a bijection between 0..63 and its 64 characters. |
| `Base64.Encode` | extract_ed25519_from_cert.py:64 | The output has `4 * ceil(n/3)` characters. Each is an alphabet character or `=`. When `n` is a multiple of 3, each is an alphabet character. |
| `Base64.DecodeEncodeTriple` | extract_ed25519_from_cert.py:64 | Four characters encoding three bytes decode back to those bytes. |
| `Base64.DecodeEncodeSingle` | extract_ed25519_from_cert.py:64 | A final byte padded `xx==` decodes back to itself. |
| `Base64.DecodeEncodePair` | extract_ed25519_from_cert.py:64 | A final pair of bytes padded `xxx=` decodes back to itself. |
| `Base64.DecodeEncode` | extract_ed25519_from_cert.py:64 | Decoding the encoding of any byte sequence gives that sequence back. |
| `KeyLine.AuthorizedKeyLine` | extract_ed25519_from_cert.py:12-66 | The line has 92 characters: `ssh-ed25519 `, then 68 base64 characters of the blob (no space or newline among them), then ` CN=SSH key` and a newline. |
| `KeyLine.KeyTypeTextIsKeyTypeName` | extract_ed25519_from_cert.py:62-66 | The key-type word at the head of the line is, character by character, the ASCII of the blob's type `string` "ssh-ed25519". |
| `KeyLine.LineRoundTrip` | extract_ed25519_from_cert.py:62-66 | Reading the line back (prefix, base64, blob, key type) recovers exactly the key it was written from. |
| `KeyLine.RunCarriesExtractedKey` | extract_ed25519_from_cert.py:26-66 | The pipeline fails exactly when extraction fails, with the same error. A line it produces reads back to the extracted key. |
| `KeyLine.MinimalBufferLine` | extract_ed25519_from_cert.py:26-66 | `06 03 2B 65 70 03 21 00 <key>` becomes `ssh-ed25519 <base64(00 00 00 0B "ssh-ed25519" 00 00 00 20 key)> CN=SSH key`. |

## Left out

- Command-line handling: the argument count, the usage message, exit code 2 and the default output file name (lines 6-11). This is process plumbing.
- Reading the input file, writing the output file and printing the confirmation (lines 14, 67-69). This is I/O. `KeyLine.Run` returns the line, or the error that would end the process.
- PEM envelope detection with `re.search(..., re.S)`, `splitlines` and `base64.b64decode` (lines 17-23). These rest on Python's regular-expression, line-splitting and lenient base64-decoding semantics. The model's input is the DER bytes themselves. So no lemma states that a PEM input and its decoded DER give the same line.
- Process termination: each `sys.exit` is an `Err` value of `Result`, not a process exit.
- `Locator.Find`: models `bytes.find` only for the non-negative start positions the script uses.
- `Locator.UnusedBitsIgnored`: stated for the primary path only. On the fallback path the unused-bits byte is the OID's own `0x65`, so overwriting it would move or remove the OID. `Locator.FallbackPath` covers that case instead.
- `Base64.Decode`: this is the model's own inverse of the encoder. It does not model Python's `base64.b64decode`, which accepts more inputs (for example, non-zero padding bits).
