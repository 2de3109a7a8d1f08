/** The crypto codec of security/encrdecr.go: AES in CFB mode over a fixed
    IV, the length framing that splices `//<n>//` into a ciphertext, and the
    day token all participants compute from the calendar date.

    AES itself is a parameter (`Codec.cipher`), as are the key, the clock and
    the pseudo-random generator. */
module Security {
  import opened Errors
  import opened GoLib
  import opened DiscoModel

  // ===========================================================================
  // AES-CFB

  const BlockSize: nat := 16

  type Block = b: Bytes | |b| == BlockSize witness seq(16, _ => 0 as bv8)

  /** commonIV: the bytes 0x00 .. 0x0f. */
  const CommonIV: Block := [0x00, 0x01, 0x02, 0x03, 0x04, 0x05, 0x06, 0x07,
                            0x08, 0x09, 0x0a, 0x0b, 0x0c, 0x0d, 0x0e, 0x0f]

  /** The block cipher (AES, encrypting one block under a key) and the key. */
  datatype Codec = Codec(cipher: (Bytes, Block) -> Block, key: Bytes)

  /** aes.NewCipher accepts 16-, 24- and 32-byte keys. */
  predicate ValidKeySize(n: nat) {
    n == 16 || n == 24 || n == 32
  }

  /** The key EncryptCFB and DecryptCFB hard-code. */
  const SourceKey: Bytes := Ascii("IwTbLbY!0@9*7^JyTtPtWyPmPmDyPmMf")

  /** The hard-coded key is an AES-256 key, so with it NewCipher never fails. */
  lemma SourceKeyIsValid()
    ensures |SourceKey| == 32 && ValidKeySize(|SourceKey|)
  {
  }

  /** XOR of `src` with the leading bytes of a keystream block. */
  function XorBytes(src: Bytes, pad: Block): (r: Bytes)
    requires |src| <= BlockSize
    ensures |r| == |src|
    ensures forall i :: 0 <= i < |src| ==> r[i] == src[i] ^ pad[i]
  {
    seq(|src|, i requires 0 <= i < |src| => src[i] ^ pad[i])
  }

  /** XORing with the same pad twice gives the input back. */
  lemma XorBytesTwice(src: Bytes, pad: Block)
    requires |src| <= BlockSize
    ensures XorBytes(XorBytes(src, pad), pad) == src
  {
  }

  /** CFB with full 128-bit segments (section 6.3 of NIST SP 800-38A) from the
      feedback block `fb`: every block of `src` is XORed with the cipher of the
      previous ciphertext block, a final partial block with the leading bytes
      of its keystream block.  Encryption and decryption differ only in which
      side of the XOR is fed back: the output when encrypting, the input when
      decrypting. */
  function Cfb(codec: Codec, fb: Block, src: Bytes, decrypt: bool): (r: Bytes)
    ensures |r| == |src|
    decreases |src|
  {
    var out := codec.cipher(codec.key, fb);
    if |src| <= BlockSize then XorBytes(src, out)
    else
      var head := XorBytes(src[..BlockSize], out);
      head + Cfb(codec, if decrypt then src[..BlockSize] else head, src[BlockSize..], decrypt)
  }

  /** Decryption inverts encryption from any feedback block. */
  lemma {:induction false} CfbDecryptEncrypt(codec: Codec, fb: Block, p: Bytes)
    ensures Cfb(codec, fb, Cfb(codec, fb, p, false), true) == p
    decreases |p|
  {
    var c := Cfb(codec, fb, p, false);
    if |p| > BlockSize {
      var head := XorBytes(p[..BlockSize], codec.cipher(codec.key, fb));
      assert c[..BlockSize] == head;
      assert c[BlockSize..] == Cfb(codec, head, p[BlockSize..], false);
      CfbDecryptEncrypt(codec, head, p[BlockSize..]);
      assert XorBytes(head, codec.cipher(codec.key, fb)) == p[..BlockSize];
      assert p == p[..BlockSize] + p[BlockSize..];
    } else {
      assert Cfb(codec, fb, c, true) == p;
    }
  }

  /** Encryption inverts decryption from any feedback block. */
  lemma {:induction false} CfbEncryptDecrypt(codec: Codec, fb: Block, c: Bytes)
    ensures Cfb(codec, fb, Cfb(codec, fb, c, true), false) == c
    decreases |c|
  {
    var p := Cfb(codec, fb, c, true);
    if |c| > BlockSize {
      var out := codec.cipher(codec.key, fb);
      var head := XorBytes(c[..BlockSize], out);
      assert p[..BlockSize] == head;
      assert p[BlockSize..] == Cfb(codec, c[..BlockSize], c[BlockSize..], true);
      CfbEncryptDecrypt(codec, c[..BlockSize], c[BlockSize..]);
      assert XorBytes(head, out) == c[..BlockSize];
      assert c == c[..BlockSize] + c[BlockSize..];
    } else {
      assert Cfb(codec, fb, p, false) == c;
    }
  }

  /** What EncryptCFB returns: the CFB ciphertext, as long as the plaintext. */
  function Encrypt(codec: Codec, plainText: Bytes): (r: Result<Bytes>)
    ensures r.Ok? <==> ValidKeySize(|codec.key|)
    ensures r.Ok? ==> |r.value| == |plainText|
  {
    if !ValidKeySize(|codec.key|) then Err(InvalidKeySize(|codec.key|))
    else Ok(Cfb(codec, CommonIV, plainText, false))
  }

  /** The largest buffer `make` allocates on linux/amd64 (2^48 bytes, the
      runtime's maxAlloc); a longer one panics with "len out of range". */
  const MaxAlloc: int := 0x1_0000_0000_0000

  /** DecryptCFB panics when `make([]byte, dataLen)` is refused, and when
      XORKeyStream finds the output buffer shorter than the input; so it
      demands a length no shorter than the ciphertext and no longer than
      MaxAlloc (a failed NewCipher returns before either point). */
  predicate DecryptWillNotPanic(codec: Codec, encryptedText: Bytes, dataLen: int) {
    ValidKeySize(|codec.key|) ==> |encryptedText| <= dataLen <= MaxAlloc
  }

  /** What DecryptCFB returns: a buffer of `dataLen` bytes whose first
      |encryptedText| bytes are the CFB plaintext and whose rest stays zero. */
  function Decrypt(codec: Codec, encryptedText: Bytes, dataLen: int): (r: Result<Bytes>)
    requires DecryptWillNotPanic(codec, encryptedText, dataLen)
    ensures r.Ok? <==> ValidKeySize(|codec.key|)
    ensures r.Ok? ==> |r.value| == dataLen
    ensures r.Ok? ==> r.value[..|encryptedText|] == Cfb(codec, CommonIV, encryptedText, true)
    ensures r.Ok? ==> forall k :: |encryptedText| <= k < dataLen ==> r.value[k] == 0
  {
    if !ValidKeySize(|codec.key|) then Err(InvalidKeySize(|codec.key|))
    else Ok(Cfb(codec, CommonIV, encryptedText, true) + seq(dataLen - |encryptedText|, _ => 0 as bv8))
  }

  /** DecryptCFB(EncryptCFB(p), len(p)) == p. */
  lemma EncryptDecryptRoundTrip(codec: Codec, p: Bytes)
    requires ValidKeySize(|codec.key|) && |p| <= MaxAlloc
    ensures DecryptWillNotPanic(codec, Encrypt(codec, p).value, |p|)
    ensures Decrypt(codec, Encrypt(codec, p).value, |p|) == Ok(p)
  {
    CfbDecryptEncrypt(codec, CommonIV, p);
    var c := Encrypt(codec, p).value;
    var r := Decrypt(codec, c, |p|).value;
    assert r == r[..|c|];
  }

  /** EncryptCFB(DecryptCFB(c, len(c))) == c: the cipher is a bijection on
      strings of each length. */
  lemma DecryptEncryptRoundTrip(codec: Codec, c: Bytes)
    requires ValidKeySize(|codec.key|) && |c| <= MaxAlloc
    ensures Encrypt(codec, Decrypt(codec, c, |c|).value) == Ok(c)
  {
    CfbEncryptDecrypt(codec, CommonIV, c);
    assert Decrypt(codec, c, |c|).value == Cfb(codec, CommonIV, c, true);
  }

  /** subtle.XORBytes into dst[at..]: XOR `chunk` with the keystream block. */
  method XorInto(dst: array<byte>, at: nat, chunk: Bytes, pad: Block)
    requires |chunk| <= BlockSize && at + |chunk| <= dst.Length
    modifies dst
    ensures forall j :: 0 <= j < |chunk| ==> dst[at + j] == chunk[j] ^ pad[j]
    ensures forall k :: 0 <= k < dst.Length && !(at <= k < at + |chunk|) ==> dst[k] == old(dst[k])
  {
    var k := 0;
    while k < |chunk|
      invariant 0 <= k <= |chunk|
      invariant forall j :: 0 <= j < k ==> dst[at + j] == chunk[j] ^ pad[j]
      invariant forall m :: 0 <= m < dst.Length && !(at <= m < at + k) ==> dst[m] == old(dst[m])
    {
      dst[at + k] := chunk[k] ^ pad[k];
      k := k + 1;
    }
  }

  /** The first block of a CFB transform: the leading min(|src|, 16) bytes
      XORed with the keystream block, then the transform of the remainder from
      the next feedback block. */
  lemma CfbFirstBlock(codec: Codec, fb: Block, src: Bytes, decrypt: bool)
    requires src != []
    ensures var n := if |src| < BlockSize then |src| else BlockSize;
            var head := XorBytes(src[..n], codec.cipher(codec.key, fb));
            Cfb(codec, fb, src, decrypt) ==
              head + if |src| <= BlockSize then []
                     else Cfb(codec, if decrypt then src[..BlockSize] else head, src[BlockSize..], decrypt)
  {
    if |src| <= BlockSize {
      assert src[..|src|] == src;
    }
  }

  /** The block of a CFB transform that starts at offset i of src, when the
      transform of src[i..] from `next` is full[i..]: the next
      min(|src| - i, 16) bytes XORed with next's keystream block, followed by
      the transform of the rest from the new feedback block. */
  lemma CfbBlockAt(codec: Codec, src: Bytes, i: nat, next: Block, decrypt: bool, full: Bytes, n: nat)
    requires i < |src| && |full| == |src|
    requires n == if |src| - i < BlockSize then |src| - i else BlockSize
    requires Cfb(codec, next, src[i..], decrypt) == full[i..]
    ensures full[i..i + n] == XorBytes(src[i..i + n], codec.cipher(codec.key, next))
    ensures i + n < |src| ==>
              Cfb(codec, if decrypt then src[i..i + n] else full[i..i + n], src[i + n..], decrypt) == full[i + n..]
  {
    var rest := src[i..];
    CfbFirstBlock(codec, next, rest, decrypt);
    assert rest[..n] == src[i..i + n];
    assert full[i..][..n] == full[i..i + n];
    if i + n < |src| {
      assert rest[BlockSize..] == src[i + n..];
      assert full[i..][n..] == full[i + n..];
    }
  }

  /** One block of XORKeyStream at offset i, when dst holds the transform
      `full` below i and the original `orig` from i on: writes the next
      min(|src| - i, 16) bytes of the transform and returns how many it wrote
      and the feedback block for the rest. */
  method XorBlock(codec: Codec, dst: array<byte>, src: Bytes, i: nat, next: Block, decrypt: bool,
                  ghost full: Bytes, ghost orig: Bytes) returns (n: nat, feedback: Block)
    requires i < |src| <= dst.Length && |full| == |src| && |orig| == dst.Length
    requires Cfb(codec, next, src[i..], decrypt) == full[i..]
    requires forall k :: 0 <= k < dst.Length ==> dst[k] == if k < i then full[k] else orig[k]
    modifies dst
    ensures 0 < n && i + n <= |src|
    ensures Cfb(codec, feedback, src[i + n..], decrypt) == full[i + n..]
    ensures forall k :: 0 <= k < dst.Length ==> dst[k] == if k < i + n then full[k] else orig[k]
  {
    var out := codec.cipher(codec.key, next);
    n := if |src| - i < BlockSize then |src| - i else BlockSize;
    var chunk := src[i..i + n];
    CfbBlockAt(codec, src, i, next, decrypt, full, n);
    XorInto(dst, i, chunk, out);
    forall k | i <= k < i + n ensures dst[k] == full[k] {
      assert dst[i + (k - i)] == chunk[k - i] ^ out[k - i] == full[i..i + n][k - i];
    }
    if i + n < |src| {
      feedback := if decrypt then chunk else dst[i..i + n];
      assert dst[i..i + n] == full[i..i + n];
    } else {
      feedback := next;
    }
  }

  /** XORKeyStream of a fresh CFB stream over CommonIV, one block at a time:
      writes the CFB transform of `src` into the first |src| bytes of `dst`
      and leaves the rest of `dst` alone. */
  method XorKeyStream(codec: Codec, dst: array<byte>, src: Bytes, decrypt: bool)
    requires |src| <= dst.Length
    modifies dst
    ensures dst[..|src|] == Cfb(codec, CommonIV, src, decrypt)
    ensures dst[|src|..] == old(dst[|src|..])
  {
    ghost var full := Cfb(codec, CommonIV, src, decrypt);
    ghost var orig := dst[..];
    var next: Block := CommonIV;
    var i := 0;
    while i < |src|
      invariant 0 <= i <= |src|
      invariant Cfb(codec, next, src[i..], decrypt) == full[i..]
      invariant forall k :: 0 <= k < dst.Length ==> dst[k] == if k < i then full[k] else orig[k]
      decreases |src| - i
    {
      var n;
      n, next := XorBlock(codec, dst, src, i, next, decrypt, full, orig);
      i := i + n;
    }
    assert dst[..|src|] == full;
    assert dst[|src|..] == orig[|src|..] == old(dst[|src|..]);
  }

  /** EncryptCFB: allocates a buffer as long as the plaintext and XORs the
      keystream into it. */
  method EncryptCFB(codec: Codec, plainText: Bytes) returns (r: Result<Bytes>)
    ensures r == Encrypt(codec, plainText)
  {
    if !ValidKeySize(|codec.key|) {
      return Err(InvalidKeySize(|codec.key|));
    }
    var encryptedText := new byte[|plainText|];
    XorKeyStream(codec, encryptedText, plainText, false);
    assert encryptedText[..] == encryptedText[..|plainText|];
    return Ok(encryptedText[..]);
  }

  /** DecryptCFB: allocates a zeroed buffer of `dataLen` bytes and XORs the
      keystream of the ciphertext into its front. */
  method DecryptCFB(codec: Codec, encryptedText: Bytes, dataLen: int) returns (r: Result<Bytes>)
    requires DecryptWillNotPanic(codec, encryptedText, dataLen)
    ensures r == Decrypt(codec, encryptedText, dataLen)
  {
    if !ValidKeySize(|codec.key|) {
      return Err(InvalidKeySize(|codec.key|));
    }
    var plainText := new byte[dataLen](_ => 0);
    ghost var zeros := plainText[|encryptedText|..];
    XorKeyStream(codec, plainText, encryptedText, true);
    assert plainText[..] == plainText[..|encryptedText|] + plainText[|encryptedText|..];
    assert zeros == seq(dataLen - |encryptedText|, _ => 0 as bv8);
    return Ok(plainText[..]);
  }

  // ===========================================================================
  // Length framing

  /** PATTERN, the delimiter around a hidden length. */
  const Pattern: Bytes := [Slash, Slash]

  /** The marker HideLength splices in for a length n. */
  function LengthMarker(n: int): Bytes {
    Pattern + Itoa(n) + Pattern
  }

  /** A substring matched by PATTERN_REGEX, "//", digits, "//". */
  predicate IsMarker(m: Bytes) {
    |m| >= 4 && m[..2] == Pattern && m[|m| - 2..] == Pattern && AllDigits(m[2..|m| - 2])
  }

  predicate SlashFree(s: Bytes) {
    forall k :: 0 <= k < |s| ==> s[k] != Slash
  }

  /** No marker starts at a position in [lo, hi). */
  ghost predicate NoMarkerIn(s: Bytes, lo: nat, hi: nat) {
    forall j, e :: lo <= j < hi && j <= e <= |s| ==> !IsMarker(s[j..e])
  }

  /** A marker from i to e is "//", the digit run from i + 2, then "//". */
  lemma MarkerShape(s: Bytes, i: nat)
    requires i <= |s|
    ensures forall e :: i <= e <= |s| && IsMarker(s[i..e]) ==>
              s[i..i + 2] == Pattern && DigitRunEnd(s, i + 2) == e - 2 && s[e - 2..e] == Pattern
  {
    forall e | i <= e <= |s| && IsMarker(s[i..e])
      ensures s[i..i + 2] == Pattern && DigitRunEnd(s, i + 2) == e - 2 && s[e - 2..e] == Pattern
    {
      var m := s[i..e];
      assert |m| == e - i;
      assert m[..2] == s[i..i + 2];
      forall k | i + 2 <= k < e - 2 ensures IsDigit(s[k]) {
        assert s[k] == m[2..|m| - 2][k - i - 2];
      }
      assert m[|m| - 2..] == s[e - 2..e];
      assert s[e - 2] == m[|m| - 2..][0];
      DigitRunEndAt(s, i + 2, e - 2);
    }
  }

  /** The end of the marker starting at i, if one does.  A marker starting at
      a given position is unique, because the digits stop at the first '/'. */
  function MarkerEndAt(s: Bytes, i: nat): (r: Option<nat>)
    requires i <= |s|
    ensures r.Some? ==> i < r.value <= |s| && IsMarker(s[i..r.value])
    ensures forall e :: i <= e <= |s| && IsMarker(s[i..e]) ==> r == Some(e)
  {
    MarkerShape(s, i);
    if i + 2 <= |s| && s[i..i + 2] == Pattern then
      var k := DigitRunEnd(s, i + 2);
      if k + 2 <= |s| && s[k..k + 2] == Pattern then
        assert s[i..k + 2][..2] == s[i..i + 2];
        assert s[i..k + 2][2..k - i] == s[i + 2..k];
        assert s[i..k + 2][k - i..] == s[k..k + 2];
        Some(k + 2)
      else
        None
    else
      None
  }

  /** The leftmost marker at or after i, as (start, end). */
  function FindFrom(s: Bytes, i: nat): (r: Option<(nat, nat)>)
    requires i <= |s|
    ensures r.Some? ==> i <= r.value.0 < r.value.1 <= |s| && IsMarker(s[r.value.0..r.value.1])
    ensures r.Some? ==> NoMarkerIn(s, i, r.value.0)
    ensures r.None? ==> NoMarkerIn(s, i, |s| + 1)
    decreases |s| - i
  {
    match MarkerEndAt(s, i)
    case Some(e) => Some((i, e))
    case None => if i == |s| then None else FindFrom(s, i + 1)
  }

  /** m occurs at j and is the leftmost marker of s. */
  ghost predicate LeftmostMarker(s: Bytes, j: nat, m: Bytes) {
    j + |m| <= |s| && s[j..j + |m|] == m && IsMarker(m) && NoMarkerIn(s, 0, j)
  }

  /** FindLengthInCFBEncryptedString: the leftmost match of "//", digits, "//"
      (with leftmost-first matching the digits run to the first non-digit, so
      a match is determined by where it starts); an error when none. */
  function FindLength(encryptedData: Bytes): (r: Result<Bytes>)
    ensures r.Ok? ==> exists j :: LeftmostMarker(encryptedData, j, r.value)
    ensures r.Err? <==> NoMarkerIn(encryptedData, 0, |encryptedData| + 1)
    ensures r.Err? ==> r.error == MarkerNotFound
  {
    match FindFrom(encryptedData, 0)
    case Some((i, e)) =>
      assert LeftmostMarker(encryptedData, i, encryptedData[i..e]);
      Ok(encryptedData[i..e])
    case None => Err(MarkerNotFound)
  }

  /** RemovePatternAttrsFromLength: deletes the first two "//" and parses the
      rest as a decimal int. */
  function RemovePatternAttrsFromLength(length: Bytes): (r: Result<int>)
    ensures r.Ok? ==> MinInt <= r.value <= MaxInt
    ensures length == [] ==> r == Err(NumSyntax)
  {
    Atoi(Replace(length, Pattern, [], 2))
  }

  /** HideLengthInCFBEncryptedString: replaces the first occurrence of the
      first half of the ciphertext by itself followed by the marker.  Since
      that half is a prefix, the marker lands at the floor midpoint; an empty
      half (|c| <= 1) matches at the front. */
  function HideLength(encryptedData: Bytes, originalLength: int): (r: Bytes)
    ensures r == encryptedData[..|encryptedData| / 2] + LengthMarker(originalLength)
                 + encryptedData[|encryptedData| / 2..]
  {
    var halfOfData := encryptedData[..|encryptedData| / 2];
    var spliced := halfOfData + Pattern + Itoa(originalLength) + Pattern;
    assert spliced == halfOfData + LengthMarker(originalLength);
    ReplaceHalf(encryptedData, LengthMarker(originalLength));
    Replace(encryptedData, halfOfData, spliced, 1)
  }

  /** Replacing the first half of c by itself followed by a non-empty m
      inserts m at the midpoint. */
  lemma ReplaceHalf(c: Bytes, m: Bytes)
    requires m != []
    ensures Replace(c, c[..|c| / 2], c[..|c| / 2] + m, 1) == c[..|c| / 2] + m + c[|c| / 2..]
  {
    var half := c[..|c| / 2];
    assert OccursAt(c, half, 0);
    ReplacePrefixOnce(c, half, half + m);
  }

  /** RemoveLengthFromCFBEncryptedData: deletes the first occurrence of the
      marker; a string without it (or an empty marker) comes back unchanged. */
  function RemoveLength(encryptedData: Bytes, patternToRemove: Bytes): (r: Bytes)
    ensures patternToRemove == [] ==> r == encryptedData
    ensures (forall j: nat :: !OccursAt(encryptedData, patternToRemove, j)) ==> r == encryptedData
    ensures forall i: nat :: FirstOccurrence(encryptedData, patternToRemove, i) ==>
              r == encryptedData[..i] + encryptedData[i + |patternToRemove|..]
  {
    Replace(encryptedData, patternToRemove, [], 1)
  }

  lemma LengthMarkerIsMarker(n: int)
    requires n >= 0
    ensures IsMarker(LengthMarker(n))
  {
    var m := LengthMarker(n);
    assert m[2..|m| - 2] == Itoa(n);
  }

  /** No "//" starts inside a leading run of digits. */
  lemma NoPatternInDigits(rest: Bytes, digits: Bytes)
    requires AllDigits(digits) && |digits| <= |rest| && rest[..|digits|] == digits
    ensures forall j: nat :: j < |digits| ==> !OccursAt(rest, Pattern, j)
  {
    forall j: nat | j < |digits| ensures !OccursAt(rest, Pattern, j) {
      assert rest[j] == rest[..|digits|][j];
      if j + 2 <= |rest| {
        assert rest[j..j + 2][0] == rest[j];
      }
    }
  }

  /** Stripping the delimiters of a marker leaves its digits. */
  lemma RemovePatternOfMarker(m: Bytes)
    requires IsMarker(m)
    ensures Replace(m, Pattern, [], 2) == m[2..|m| - 2]
    ensures RemovePatternAttrsFromLength(m) == Atoi(m[2..|m| - 2])
  {
    MarkerParts(m);
    StripDelimiters(m[2..|m| - 2]);
  }

  /** A marker is its digits between two delimiters. */
  lemma MarkerParts(m: Bytes)
    requires IsMarker(m)
    ensures m == Pattern + m[2..|m| - 2] + Pattern
  {
    assert m == m[..2] + m[2..|m| - 2] + m[|m| - 2..];
  }

  /** Deleting the first two "//" of "//digits//" leaves the digits. */
  lemma StripDelimiters(digits: Bytes)
    requires AllDigits(digits)
    ensures Replace(Pattern + digits + Pattern, Pattern, [], 2) == digits
  {
    var m := Pattern + digits + Pattern;
    assert m[..2] == Pattern;
    assert m[2..] == digits + Pattern;
    ReplaceAtFront(m, Pattern, [], 2);
    ReplaceClosingPattern(digits);
  }

  /** The closing delimiter after a run of digits is the first "//". */
  lemma ReplaceClosingPattern(digits: Bytes)
    requires AllDigits(digits)
    ensures Replace(digits + Pattern, Pattern, [], 1) == digits
  {
    var rest := digits + Pattern;
    assert rest[..|digits|] == digits;
    NoPatternInDigits(rest, digits);
    assert OccursAt(rest, Pattern, |digits|);
    ReplaceOnceAt(rest, Pattern, [], |digits|);
    assert rest[..|digits|] + [] + rest[|digits| + 2..] == digits;
  }

  /** The framed length parses back: "//5//" gives 5. */
  lemma RemovePatternOfLengthMarker(n: int)
    requires 0 <= n <= MaxInt
    ensures RemovePatternAttrsFromLength(LengthMarker(n)) == Ok(n)
  {
    LengthMarkerIsMarker(n);
    var m := LengthMarker(n);
    RemovePatternOfMarker(m);
    assert m[2..|m| - 2] == Itoa(n);
    AtoiItoa(n);
  }

  /** A string with no "//" is parsed as it stands: "hello world" is an error. */
  lemma RemovePatternWithoutDelimiters(s: Bytes)
    requires forall j: nat :: !OccursAt(s, Pattern, j)
    ensures RemovePatternAttrsFromLength(s) == Atoi(s)
  {
    ReplaceAbsent(s, Pattern, [], 2);
  }

  /** Nothing before h starts a marker when s[..h] has no '/'. */
  lemma NoMarkerInSlashFreePrefix(s: Bytes, h: nat)
    requires h <= |s| && SlashFree(s[..h])
    ensures NoMarkerIn(s, 0, h)
  {
    forall j, e | 0 <= j < h && j <= e <= |s| ensures !IsMarker(s[j..e]) {
      assert s[j] == s[..h][j];
      if j < e {
        assert s[j..e][0] == s[j];
      }
    }
  }

  lemma NoMarkerNoEnd(s: Bytes, i: nat)
    requires i <= |s| && forall e :: i <= e <= |s| ==> !IsMarker(s[i..e])
    ensures MarkerEndAt(s, i) == None
  {
  }

  /** The search moves past positions where no marker starts. */
  lemma {:induction false} FindFromSkips(s: Bytes, i: nat, h: nat)
    requires i <= h <= |s| && NoMarkerIn(s, i, h)
    ensures FindFrom(s, i) == FindFrom(s, h)
    decreases h - i
  {
    if i < h {
      assert forall e :: i <= e <= |s| ==> !IsMarker(s[i..e]);
      NoMarkerNoEnd(s, i);
      assert FindFrom(s, i) == FindFrom(s, i + 1);
      FindFromSkips(s, i + 1, h);
    }
  }

  /** The marker found in a framed slash-free ciphertext is the one inserted. */
  lemma FindLengthOfHidden(c: Bytes, n: int)
    requires SlashFree(c) && n >= 0
    ensures FindLength(HideLength(c, n)) == Ok(LengthMarker(n))
  {
    var h := |c| / 2;
    var m := LengthMarker(n);
    var s := HideLength(c, n);
    assert s[..h] == c[..h];
    assert SlashFree(s[..h]) by {
      forall k | 0 <= k < h ensures s[..h][k] != Slash {
        assert c[..h][k] == c[k];
      }
    }
    NoMarkerInSlashFreePrefix(s, h);
    FindFromSkips(s, 0, h);
    LengthMarkerIsMarker(n);
    assert s[h..h + |m|] == m;
    assert MarkerEndAt(s, h) == Some(h + |m|);
  }

  /** Removing the inserted marker restores a slash-free ciphertext. */
  lemma RemoveHiddenLength(c: Bytes, n: int)
    requires SlashFree(c)
    ensures RemoveLength(HideLength(c, n), LengthMarker(n)) == c
  {
    var h := |c| / 2;
    var m := LengthMarker(n);
    var s := HideLength(c, n);
    HiddenMarkerOccursFirst(c, n);
    assert s[..h] == c[..h] && s[h + |m|..] == c[h..];
    assert c[..h] + c[h..] == c;
  }

  /** In a framed slash-free ciphertext the inserted marker is the first
      occurrence of its own text. */
  lemma HiddenMarkerOccursFirst(c: Bytes, n: int)
    requires SlashFree(c)
    ensures FirstOccurrence(HideLength(c, n), LengthMarker(n), |c| / 2)
  {
    var h := |c| / 2;
    var m := LengthMarker(n);
    var s := HideLength(c, n);
    assert s[h..h + |m|] == m;
    assert m[0] == Slash;
    forall j: nat | j < h ensures !OccursAt(s, m, j) {
      assert s[j] == c[j];
      if j + |m| <= |s| {
        assert s[j..j + |m|][0] == s[j];
      }
    }
  }

  /** A field as the builders put it on the wire: its ciphertext framed with
      the length of its plaintext. */
  function Sealed(codec: Codec, plain: Bytes): (r: Bytes)
    requires ValidKeySize(|codec.key|)
    ensures |r| == |plain| + |LengthMarker(|plain|)|
  {
    HideLength(Encrypt(codec, plain).value, |plain|)
  }

  /** The ciphertext of `plain` holds no '/', so its framing round-trips. */
  predicate SealsCleanly(codec: Codec, plain: Bytes) {
    ValidKeySize(|codec.key|) && |plain| <= MaxAlloc && SlashFree(Encrypt(codec, plain).value)
  }

  /** The framing round trip: for a ciphertext without '/' and a length n,
      the marker found is the one inserted, it parses back to n, and removing
      it restores the ciphertext. */
  lemma FramingRoundTrip(c: Bytes, n: int)
    requires SlashFree(c) && 0 <= n <= MaxInt
    ensures FindLength(HideLength(c, n)) == Ok(LengthMarker(n))
    ensures RemovePatternAttrsFromLength(LengthMarker(n)) == Ok(n)
    ensures RemoveLength(HideLength(c, n), LengthMarker(n)) == c
  {
    FindLengthOfHidden(c, n);
    RemovePatternOfLengthMarker(n);
    RemoveHiddenLength(c, n);
  }

  /** A ciphertext that itself contains a `//digits//` run is misframed.  "//99//AAAAAA" framed with its length 12
      yields "//99////12//AAAAAA", whose leftmost marker is "//99//". */
  lemma CollidingCiphertextMisframes()
    ensures var c := LengthMarker(99) + seq(6, _ => 65 as bv8);
            |c| == 12 &&
            FindLength(HideLength(c, |c|)) == Ok(LengthMarker(99)) &&
            LengthMarker(99) != LengthMarker(|c|)
  {
    var c := LengthMarker(99) + seq(6, _ => 65 as bv8);
    var m := LengthMarker(99);
    assert |Itoa(99)| == 2;
    assert |c| == 12;
    var s := HideLength(c, |c|);
    assert s[..6] == m by {
      assert c[..6] == m;
    }
    LengthMarkerIsMarker(99);
    assert s[0..6] == m;
    assert MarkerEndAt(s, 0) == Some(6);
    assert FindFrom(s, 0) == Some((0, 6));
    ItoaInjective(99, 12);
    assert m[2..4] == Itoa(99);
    assert LengthMarker(12)[2..4] == Itoa(12);
  }

  // ===========================================================================
  // The day token

  datatype Date = Date(month: int, day: int, year: int)

  predicate IsLeapYear(y: int) {
    y % 4 == 0 && (y % 100 != 0 || y % 400 == 0)
  }

  function DaysIn(month: int, year: int): int {
    if month == 2 then (if IsLeapYear(year) then 29 else 28)
    else if month == 4 || month == 6 || month == 9 || month == 11 then 30
    else 31
  }

  predicate ValidDate(d: Date) {
    1 <= d.month <= 12 && 1 <= d.day <= DaysIn(d.month, d.year)
  }

  /** The calendar day after d. */
  function NextDay(d: Date): (r: Date)
    requires ValidDate(d)
    ensures ValidDate(r)
  {
    if d.day < DaysIn(d.month, d.year) then Date(d.month, d.day + 1, d.year)
    else if d.month < 12 then Date(d.month + 1, 1, d.year)
    else Date(1, 1, d.year + 1)
  }

  /** The seed's decimal text: month, day and year, unpadded, in that order. */
  function SeedText(d: Date): Bytes {
    Itoa(d.month) + Itoa(d.day) + Itoa(d.year)
  }

  /** The seed for a date: its text parsed as an int. */
  function Seed(d: Date): (r: Result<int>)
    ensures r.Ok? ==> MinInt <= r.value <= MaxInt
  {
    Atoi(SeedText(d))
  }

  /** The token for a date: the decimal spelling of the generator's first
      output after seeding with the date's seed. */
  function Token(prng: int -> nat, d: Date): (r: Result<Bytes>)
    ensures r.Ok? ==> r.value != [] && AllDigits(r.value)
    ensures r.Err? <==> Seed(d).Err?
  {
    match Seed(d)
    case Err(e) => Err(SeedFailed(e))
    case Ok(v) => Ok(Itoa(prng(v)))
  }

  /** January 11 and November 1 of a year share the seed "111<year>". */
  lemma SeedAmbiguous(y: int)
    ensures SeedText(Date(1, 11, y)) == SeedText(Date(11, 1, y))
    ensures Seed(Date(1, 11, y)) == Seed(Date(11, 1, y))
  {
    var one := DigitByte(1);
    assert Itoa(1) == [one];
    assert Itoa(11) == [one, one];
  }

  lemma AtoiOfDigitLed(s: Bytes)
    requires s != [] && IsDigit(s[0]) && Atoi(s).Ok?
    ensures AllDigits(s) && Atoi(s).value == DigitsValue(s)
  {
  }

  /** Strings that share a prefix and a suffix differ when their middles do. */
  lemma MiddleDiffers(p: Bytes, x: Bytes, y: Bytes, q: Bytes)
    requires x != y
    ensures p + x + q != p + y + q
  {
    if |x| == |y| {
      var a, b := p + x + q, p + y + q;
      assert a[|p|..|p| + |x|] == x;
      assert b[|p|..|p| + |y|] == y;
    }
  }

  /** From the last day of a month other than December to the 1st. */
  lemma MonthStepDiffers(d: Date)
    requires ValidDate(d) && d.day == DaysIn(d.month, d.year) && d.month < 12
    ensures SeedText(d) != SeedText(NextDay(d))
  {
    var e := NextDay(d);
    var a, b := SeedText(d), SeedText(e);
    var ma, mb := Itoa(d.month), Itoa(e.month);
    assert |Itoa(d.day)| == 2 && |Itoa(e.day)| == 1;
    if d.month == 9 {
      assert ma == [DigitByte(9)];
      assert mb == NatDigits(1) + [DigitByte(0)];
      assert a[0] == ma[0] && b[0] == mb[0];
    } else {
      assert |ma| == |mb|;
    }
  }

  /** From December 31 to January 1: the second character differs. */
  lemma YearStepDiffers(d: Date)
    requires ValidDate(d) && d.day == 31 && d.month == 12
    ensures SeedText(d) != SeedText(NextDay(d))
  {
    assert NextDay(d) == Date(1, 1, d.year + 1);
    var twelve, one := Itoa(12), Itoa(1);
    assert twelve == [DigitByte(1), DigitByte(2)];
    assert one == [DigitByte(1)];
    assert SeedText(d)[1] == DigitByte(2) by {
      assert SeedText(d) == twelve + (Itoa(31) + Itoa(d.year));
    }
    assert SeedText(NextDay(d))[1] == DigitByte(1) by {
      assert SeedText(NextDay(d)) == one + one + Itoa(d.year + 1);
    }
  }

  /** Seeds of real dates are equal only when their texts are. */
  lemma SeedInjective(d: Date, e: Date)
    requires d.month >= 1 && e.month >= 1
    requires Seed(d).Ok? && Seed(e).Ok? && Seed(d).value == Seed(e).value
    ensures SeedText(d) == SeedText(e)
  {
    var a, b := SeedText(d), SeedText(e);
    assert a[0] == Itoa(d.month)[0] && b[0] == Itoa(e.month)[0];
    AtoiOfDigitLed(a);
    AtoiOfDigitLed(b);
    DigitsInjective(a, b);
  }

  /** Two consecutive calendar days never share a seed text, and when both
      parse their seeds differ. */
  lemma ConsecutiveDaysDiffer(d: Date)
    requires ValidDate(d)
    ensures SeedText(d) != SeedText(NextDay(d))
    ensures Seed(d).Ok? && Seed(NextDay(d)).Ok? ==> Seed(d).value != Seed(NextDay(d)).value
  {
    var e := NextDay(d);
    if d.day < DaysIn(d.month, d.year) {
      ItoaInjective(d.day, e.day);
      MiddleDiffers(Itoa(d.month), Itoa(d.day), Itoa(e.day), Itoa(d.year));
    } else if d.month < 12 {
      MonthStepDiffers(d);
    } else {
      YearStepDiffers(d);
    }
    if Seed(d).Ok? && Seed(e).Ok? && Seed(d).value == Seed(e).value {
      SeedInjective(d, e);
    }
  }

  /** The Security struct: the zone label and offset (seconds east of UTC)
      the token is computed in. */
  class Security {
    var seedValue: Bytes
    var offset: int

    /** new(security.Security): an empty label and offset 0. */
    constructor ()
      ensures seedValue == [] && offset == 0
    {
      seedValue := [];
      offset := 0;
    }

    constructor WithZone(seedValue: Bytes, offset: int)
      ensures this.seedValue == seedValue && this.offset == offset
    {
      this.seedValue := seedValue;
      this.offset := offset;
    }

    /** generateDiscoReqTokenSeed.  `dateAt(o)` is the calendar date of the
        current instant in a zone `o` seconds east of UTC.  An empty label is
        set to "GMT" first; the label names the zone and nothing else, so the
        seed depends on the offset alone. */
    method GenerateDiscoReqTokenSeed(dateAt: int -> Date) returns (r: Result<int>)
      modifies this
      ensures seedValue == (if old(seedValue) == [] then DefaultSeedValue else old(seedValue))
      ensures offset == old(offset)
      ensures r == Seed(dateAt(offset))
    {
      if seedValue == [] {
        seedValue := DefaultSeedValue;
      }
      var tm := dateAt(offset);
      var strBuilder: Bytes := [];
      strBuilder := strBuilder + Itoa(tm.month);
      assert strBuilder == Itoa(tm.month);
      strBuilder := strBuilder + Itoa(tm.day);
      strBuilder := strBuilder + Itoa(tm.year);
      r := Atoi(strBuilder);
    }

    /** GenerateDiscoReqToken: seeds the generator with the day's seed and
        returns its first output in decimal. */
    method GenerateDiscoReqToken(dateAt: int -> Date, prng: int -> nat) returns (r: Result<Bytes>)
      modifies this
      ensures seedValue == (if old(seedValue) == [] then DefaultSeedValue else old(seedValue))
      ensures offset == old(offset)
      ensures r == Token(prng, dateAt(offset))
    {
      var seed := GenerateDiscoReqTokenSeed(dateAt);
      if seed.Err? {
        return Err(SeedFailed(seed.error));
      }
      return Ok(Itoa(prng(seed.value)));
    }
  }
}
