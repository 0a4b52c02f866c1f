/** The byte-level key locator of `extract_ed25519_from_cert.py`: it finds the
    id-Ed25519 OID (1.3.101.112, RFC 8410 section 3) in a DER buffer, then the
    subjectPublicKey BIT STRING header after it, and slices out the 32 key
    bytes, without decoding the certificate. */
module Locator {
  import opened Bytes

  /** DER TLV of the OID 1.3.101.112: tag 06, length 03, contents 2B 65 70. */
  const Oid: seq<byte> := [0x06, 0x03, 0x2B, 0x65, 0x70]

  /** BIT STRING tag 03 with short-form length 0x21 = 33 (1 unused-bits byte
      followed by the 32 key bytes), ITU-T X.690 sections 8.6 and 8.1.3.4. */
  const BitStringHeader: seq<byte> := [0x03, 0x21]

  /** Size of the window the fallback scan examines. */
  const FallbackWindow: nat := 300

  /** Length of an Ed25519 public key. */
  const KeySize: nat := 32

  /** `pat` occurs in `s` starting at index `i`. */
  predicate MatchesAt(s: seq<byte>, pat: seq<byte>, i: int)
  {
    0 <= i && i + |pat| <= |s| && s[i..i + |pat|] == pat
  }

  /** Python's `bytes.find(pat, start)`: the lowest index at or after `start`
      where `pat` occurs, or -1 when there is none. */
  function Find(s: seq<byte>, pat: seq<byte>, start: nat): (r: int)
    decreases |s| - start
    ensures -1 <= r
    ensures r == -1 <==> forall i :: start <= i ==> !MatchesAt(s, pat, i)
    ensures r != -1 ==> start <= r && MatchesAt(s, pat, r)
    ensures r != -1 ==> forall i :: start <= i < r ==> !MatchesAt(s, pat, i)
  {
    if start + |pat| > |s| then -1
    else if s[start..start + |pat|] == pat then assert MatchesAt(s, pat, start); start
    else Find(s, pat, start + 1)
  }

  /** The condition the fallback loop tests at index `i`: a BIT STRING tag
      whose (short-form) length byte is at least 33. */
  predicate Qualifies(der: seq<byte>, i: int)
  {
    0 <= i && i + 1 < |der| && der[i] == 0x03 && der[i + 1] >= 33
  }

  /** The first index in `[lo, hi)` that qualifies, if any. */
  function FirstQualifying(der: seq<byte>, lo: nat, hi: int): (r: Option<nat>)
    decreases hi - lo
    ensures r == None <==> forall i :: lo <= i < hi ==> !Qualifies(der, i)
    ensures r != None ==> lo <= r.value < hi && Qualifies(der, r.value)
    ensures r != None ==> forall i :: lo <= i < r.value ==> !Qualifies(der, i)
  {
    if hi <= lo then None
    else if Qualifies(der, lo) then Some(lo)
    else FirstQualifying(der, lo + 1, hi)
  }

  /** Exclusive end of the fallback window: `min(len(der) - 2, pos + 300)`. */
  function WindowEnd(der: seq<byte>, pos: nat): int
  {
    Min(|der| - 2, pos + FallbackWindow)
  }

  /** The fallback loop: scans `range(pos, min(len(der) - 2, pos + 300))` for
      the first qualifying index and stops there. `bsIdx` stays -1 when the
      scan finds nothing. */
  method FallbackScan(der: seq<byte>, pos: nat) returns (found: bool, bsIdx: int)
    ensures found <==> exists i :: pos <= i < WindowEnd(der, pos) && Qualifies(der, i)
    ensures found ==> pos <= bsIdx < WindowEnd(der, pos) && Qualifies(der, bsIdx)
    ensures found ==> forall i :: pos <= i < bsIdx ==> !Qualifies(der, i)
    ensures !found ==> bsIdx == -1
  {
    found := false;
    bsIdx := -1;
    var hi := WindowEnd(der, pos);
    var i := pos;
    while i < hi
      invariant pos <= i
      invariant forall j :: pos <= j < i ==> !Qualifies(der, j)
    {
      if der[i] == 0x03 {
        var ln := der[i + 1];
        if ln >= 33 {
          bsIdx := i;
          found := true;
          assert Qualifies(der, bsIdx);
          break;
        }
      }
      i := i + 1;
    }
  }

  /** Where the BIT STRING header is taken to be, once the OID was found at
      `pos`: the first `03 21` pair at or after `pos` anywhere in the buffer,
      else the first qualifying index of the fallback window. */
  function LocateBitString(der: seq<byte>, pos: nat): Option<nat>
  {
    var p := Find(der, BitStringHeader, pos);
    if p != -1 then Some(p) else FirstQualifying(der, pos, WindowEnd(der, pos))
  }

  /** Lines 47-59: the bounds check, the (ignored) unused-bits byte and the
      key slice, for a header at `bsIdx`. Python's slice clamps its end at
      the buffer's length, so a short tail yields a short key. */
  function KeyAt(der: seq<byte>, bsIdx: nat): (r: Result<seq<byte>>)
    ensures r.Ok? <==> bsIdx + 3 + KeySize <= |der|
    ensures r.Ok? ==> |r.value| == KeySize && r.value == der[bsIdx + 3 .. bsIdx + 3 + KeySize]
    ensures r == Err(InvalidBitStringLocation) <==> bsIdx + 2 >= |der|
    ensures bsIdx + 2 < |der| < bsIdx + 3 + KeySize ==>
              r == Err(KeyLength(|der| - (bsIdx + 3))) && |der| - (bsIdx + 3) < KeySize
  {
    var payloadStart := bsIdx + 2;
    if payloadStart >= |der| then Err(InvalidBitStringLocation)
    else
      var pubkeyStart := payloadStart + 1;
      var pubkey := der[pubkeyStart .. Min(pubkeyStart + KeySize, |der|)];
      if |pubkey| != KeySize then Err(KeyLength(|pubkey|)) else Ok(pubkey)
  }

  /** The whole locate-and-extract step (lines 26-59) as a function of the
      DER bytes. */
  function Extract(der: seq<byte>): Result<seq<byte>>
  {
    var pos := Find(der, Oid, 0);
    if pos == -1 then Err(OidNotFound)
    else
      match LocateBitString(der, pos)
      case None => Err(BitStringNotLocated)
      case Some(bsIdx) => KeyAt(der, bsIdx)
  }

  /** Lines 26-59 step by step, as the script runs them: the two searches,
      the fallback loop, then the bounds checks and the slice. */
  method ExtractPublicKey(der: seq<byte>) returns (r: Result<seq<byte>>)
    ensures r == Extract(der)
    ensures r.Ok? ==> |r.value| == KeySize
  {
    var pos := Find(der, Oid, 0);
    if pos == -1 {
      return Err(OidNotFound);
    }
    var bsIdx := Find(der, BitStringHeader, pos);
    if bsIdx == -1 {
      var found;
      found, bsIdx := FallbackScan(der, pos);
      if !found {
        return Err(BitStringNotLocated);
      }
      assert FirstQualifying(der, pos, WindowEnd(der, pos)) == Some(bsIdx);
    }
    var payloadStart := bsIdx + 2;
    if payloadStart >= |der| {
      return Err(InvalidBitStringLocation);
    }
    var pubkeyStart := payloadStart + 1;
    var pubkey := der[pubkeyStart .. Min(pubkeyStart + KeySize, |der|)];
    if |pubkey| != KeySize {
      return Err(KeyLength(|pubkey|));
    }
    r := Ok(pubkey);
  }

  // ---------------------------------------------------------------------
  // Properties of the locator

  /** The five bytes at an OID match, one by one. */
  lemma OidBytesAt(der: seq<byte>, pos: nat)
    requires MatchesAt(der, Oid, pos)
    ensures pos + 5 <= |der|
    ensures der[pos] == 0x06 && der[pos + 1] == 0x03 && der[pos + 2] == 0x2B
    ensures der[pos + 3] == 0x65 && der[pos + 4] == 0x70
  {
    assert der[pos..pos + 5] == Oid;
    assert der[pos..pos + 5][1] == der[pos + 1];
    assert der[pos..pos + 5][2] == der[pos + 2];
  }

  /** The two bytes at a header match. */
  lemma HeaderBytesAt(der: seq<byte>, i: int)
    requires MatchesAt(der, BitStringHeader, i)
    ensures der[i] == 0x03 && der[i + 1] == 0x21
  {
    assert der[i..i + 2] == BitStringHeader;
    assert der[i..i + 2][0] == der[i] && der[i..i + 2][1] == der[i + 1];
  }

  /** None of the OID's byte pairs is `03 21`. */
  lemma NoHeaderInsideOid(der: seq<byte>, pos: nat)
    requires MatchesAt(der, Oid, pos)
    ensures forall i :: pos <= i < pos + 5 ==> !MatchesAt(der, BitStringHeader, i)
  {
    OidBytesAt(der, pos);
    forall i | pos <= i < pos + 5 && MatchesAt(der, BitStringHeader, i)
      ensures false
    {
      HeaderBytesAt(der, i);
    }
  }

  /** The `03 21` header found by the primary search never overlaps the OID
      it started from: the search starts at the OID's first byte, but none of
      the OID's byte pairs is `03 21`. */
  lemma PrimaryAfterOid(der: seq<byte>, pos: nat)
    requires MatchesAt(der, Oid, pos)
    requires Find(der, BitStringHeader, pos) != -1
    ensures Find(der, BitStringHeader, pos) >= pos + 5
  {
    NoHeaderInsideOid(der, pos);
  }

  /** The fallback window starts at the OID's own first byte, and the OID's
      second and third bytes are `03 2B` (0x2B = 43 >= 33): whenever the
      fallback runs it selects `pos + 1`, inside the OID. */
  lemma FallbackSelectsInsideOid(der: seq<byte>, pos: nat)
    requires MatchesAt(der, Oid, pos)
    ensures FirstQualifying(der, pos, WindowEnd(der, pos)) == Some(pos + 1)
  {
    OidBytesAt(der, pos);
    assert !Qualifies(der, pos);
    assert Qualifies(der, pos + 1);
  }

  /** Once the OID is found, some BIT STRING header is always located, so the
      "could not locate subjectPublicKey BIT STRING" exit is unreachable. */
  lemma BitStringAlwaysLocated(der: seq<byte>)
    ensures Extract(der) != Err(BitStringNotLocated)
  {
    var pos := Find(der, Oid, 0);
    if pos != -1 && Find(der, BitStringHeader, pos) == -1 {
      FallbackSelectsInsideOid(der, pos);
    }
  }

  /** The result is the "OID not found" error exactly when the five bytes
      `06 03 2B 65 70` occur nowhere in the buffer. */
  lemma OidAbsentIffNotFound(der: seq<byte>)
    ensures (forall i :: !MatchesAt(der, Oid, i)) <==> Extract(der) == Err(OidNotFound)
  {
    var pos := Find(der, Oid, 0);
    if pos != -1 {
      var b := Find(der, BitStringHeader, pos);
      if b == -1 {
        FallbackSelectsInsideOid(der, pos);
      }
    }
  }

  /** The primary path, stated without the search functions: with the OID
      first occurring at `pos` and the first `03 21` pair at or after `pos`
      at `b`, the key is the 32 bytes after the header and its unused-bits
      byte, or the bounds and length errors. */
  lemma PrimaryPath(der: seq<byte>, pos: nat, b: nat)
    requires MatchesAt(der, Oid, pos) && forall i :: 0 <= i < pos ==> !MatchesAt(der, Oid, i)
    requires pos <= b && MatchesAt(der, BitStringHeader, b)
    requires forall i :: pos <= i < b ==> !MatchesAt(der, BitStringHeader, i)
    ensures pos + 5 <= b
    ensures Extract(der) ==
              if b + 3 + KeySize <= |der| then Ok(der[b + 3 .. b + 3 + KeySize])
              else if b + 2 == |der| then Err(InvalidBitStringLocation)
              else Err(KeyLength(|der| - (b + 3)))
  {
    assert Find(der, Oid, 0) == pos;
    assert Find(der, BitStringHeader, pos) == b;
    PrimaryAfterOid(der, pos);
  }

  /** The fallback path: with the OID first occurring at `pos` and no `03 21`
      pair anywhere at or after it, the header is taken at `pos + 1`, its
      unused-bits byte is the OID's 0x65 (tolerated although non-zero), and
      the "key" is the 32 bytes starting at the OID's last byte 0x70. */
  lemma FallbackPath(der: seq<byte>, pos: nat)
    requires MatchesAt(der, Oid, pos) && forall i :: 0 <= i < pos ==> !MatchesAt(der, Oid, i)
    requires forall i :: pos <= i ==> !MatchesAt(der, BitStringHeader, i)
    ensures der[pos + 1 + 2] == 0x65
    ensures Extract(der) ==
              if pos + 4 + KeySize <= |der| then Ok(der[pos + 4 .. pos + 4 + KeySize])
              else Err(KeyLength(|der| - (pos + 4)))
    ensures Extract(der).Ok? ==> Extract(der).value[0] == 0x70
  {
    assert Find(der, Oid, 0) == pos;
    assert Find(der, BitStringHeader, pos) == -1;
    FallbackSelectsInsideOid(der, pos);
    OidBytesAt(der, pos);
  }

  /** Two buffers that differ at most at index `k` agree on every match that
      ends before `k`. */
  lemma MatchesAtAgree(s: seq<byte>, t: seq<byte>, pat: seq<byte>, j: int, k: nat)
    requires |s| == |t| && forall i :: 0 <= i < |s| && i != k ==> s[i] == t[i]
    requires j + |pat| <= k
    ensures MatchesAt(s, pat, j) == MatchesAt(t, pat, j)
  {
    if 0 <= j && j + |pat| <= |s| {
      assert s[j..j + |pat|] == t[j..j + |pat|];
    }
  }

  /** A successful search is not disturbed by a change after the match. */
  lemma FindStable(s: seq<byte>, t: seq<byte>, pat: seq<byte>, start: nat, k: nat)
    requires |s| == |t| && forall i :: 0 <= i < |s| && i != k ==> s[i] == t[i]
    requires Find(s, pat, start) != -1 && Find(s, pat, start) + |pat| <= k
    ensures Find(t, pat, start) == Find(s, pat, start)
  {
    var r := Find(s, pat, start);
    MatchesAtAgree(s, t, pat, r, k);
    forall j | start <= j < r
      ensures !MatchesAt(t, pat, j)
    {
      MatchesAtAgree(s, t, pat, j, k);
    }
  }

  /** The slice taken after a header at `b` does not read `der[b + 2]`. */
  lemma KeyAtIgnoresUnusedBits(der: seq<byte>, b: nat, v: byte)
    requires b + 2 < |der|
    ensures KeyAt(der[b + 2 := v], b) == KeyAt(der, b)
  {
    var der' := der[b + 2 := v];
    if b + 3 + KeySize <= |der| {
      assert der'[b + 3 .. b + 3 + KeySize] == der[b + 3 .. b + 3 + KeySize];
    }
  }

  /** On the primary path the value of the unused-bits byte `der[b + 2]` is
      never consulted: overwriting it with any byte changes neither success
      nor the extracted key. */
  lemma UnusedBitsIgnored(der: seq<byte>, v: byte)
    requires Find(der, Oid, 0) != -1
    requires Find(der, BitStringHeader, Find(der, Oid, 0)) != -1
    requires Find(der, BitStringHeader, Find(der, Oid, 0)) + 2 < |der|
    ensures
      var b := Find(der, BitStringHeader, Find(der, Oid, 0));
      Extract(der[b + 2 := v]) == Extract(der)
  {
    var pos := Find(der, Oid, 0);
    var b := Find(der, BitStringHeader, pos);
    var der' := der[b + 2 := v];
    PrimaryAfterOid(der, pos);
    FindStable(der, der', Oid, 0, b + 2);
    FindStable(der, der', BitStringHeader, pos, b + 2);
    assert LocateBitString(der', pos) == Some(b) == LocateBitString(der, pos);
    KeyAtIgnoresUnusedBits(der, b, v);
  }

  /** A minimal buffer `06 03 2B 65 70 03 21 00 <key>` yields exactly `key`. */
  lemma MinimalBuffer(key: seq<byte>)
    requires |key| == KeySize
    ensures Extract(Oid + [0x03, 0x21, 0x00] + key) == Ok(key)
  {
    var der := Oid + [0x03, 0x21, 0x00] + key;
    assert MatchesAt(der, Oid, 0);
    assert MatchesAt(der, BitStringHeader, 5) by {
      assert der[5..7] == BitStringHeader;
    }
    NoHeaderInsideOid(der, 0);
    PrimaryPath(der, 0, 5);
    assert der[8..8 + KeySize] == key;
  }

  /** The same buffer cut short after `n < 32` key bytes fails with the
      length error carrying `n`. */
  lemma TruncatedBuffer(key: seq<byte>)
    requires |key| < KeySize
    ensures Extract(Oid + [0x03, 0x21, 0x00] + key) == Err(KeyLength(|key|))
  {
    var der := Oid + [0x03, 0x21, 0x00] + key;
    assert MatchesAt(der, Oid, 0);
    assert MatchesAt(der, BitStringHeader, 5) by {
      assert der[5..7] == BitStringHeader;
    }
    NoHeaderInsideOid(der, 0);
    PrimaryPath(der, 0, 5);
  }
}
