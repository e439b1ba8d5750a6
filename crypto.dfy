/** The byte-level helpers of the generated protocol code: `concat` for the `||` of a
    protocol, and the framing of an AES-GCM ciphertext behind its 12-byte IV. The cipher
    itself is a parameter. */
module Crypto {
  import opened Wrappers

  /** A Java byte; its sign plays no part in copying. */
  newtype byte = x: int | -128 <= x < 128

  const GCM_IV_BYTES: nat := 12
  const GCM_TAG_BITS: nat := 128
  const TOO_SHORT := "Ciphertext too short for AES-GCM"

  // ---------------------------------------------------------------------------------
  // concat
  // ---------------------------------------------------------------------------------

  /** The bytes a part contributes: none for a null part. */
  function Part(p: array?<byte>): (bytes: seq<byte>)
    reads p
    ensures p == null ==> bytes == []
    ensures p != null ==> bytes == p[..]
  {
    if p == null then [] else p[..]
  }

  /** The summed length of the non-null parts. */
  function TotalLength(parts: seq<array?<byte>>): nat
    decreases |parts|
  {
    if |parts| == 0 then 0
    else TotalLength(parts[..|parts| - 1]) + (if parts[|parts| - 1] == null then 0 else parts[|parts| - 1].Length)
  }

  /** The non-null parts one after another, in argument order. */
  function Joined(parts: seq<array?<byte>>): seq<byte>
    reads parts
    decreases |parts|
  {
    if |parts| == 0 then []
    else Joined(parts[..|parts| - 1]) + Part(parts[|parts| - 1])
  }

  /** The joined bytes are exactly as many as the summed length. */
  lemma {:induction false} JoinedLength(parts: seq<array?<byte>>)
    ensures |Joined(parts)| == TotalLength(parts)
    decreases |parts|
  {
    if |parts| > 0 {
      JoinedLength(parts[..|parts| - 1]);
    }
  }

  /** With no parts, or only null parts, nothing is joined. */
  lemma {:induction false} JoinedNulls(parts: seq<array?<byte>>)
    requires forall i :: 0 <= i < |parts| ==> parts[i] == null
    ensures Joined(parts) == [] && TotalLength(parts) == 0
    decreases |parts|
  {
    if |parts| > 0 {
      JoinedNulls(parts[..|parts| - 1]);
    }
  }

  /** A null part changes nothing, wherever it stands. */
  lemma {:induction false} JoinedSkipsNull(xs: seq<array?<byte>>, ys: seq<array?<byte>>)
    ensures Joined(xs + [null] + ys) == Joined(xs + ys)
    decreases |ys|
  {
    if |ys| == 0 {
      assert xs + [null] + ys == xs + [null];
      assert (xs + [null])[..|xs|] == xs;
      assert xs + ys == xs;
    } else {
      var init := ys[..|ys| - 1];
      JoinedSkipsNull(xs, init);
      assert (xs + [null] + ys)[..|xs + [null] + ys| - 1] == xs + [null] + init;
      assert (xs + ys)[..|xs + ys| - 1] == xs + init;
    }
  }

  /** Joining two lists of parts joins their bytes. */
  lemma {:induction false} JoinedAppend(xs: seq<array?<byte>>, ys: seq<array?<byte>>)
    ensures Joined(xs + ys) == Joined(xs) + Joined(ys)
    decreases |ys|
  {
    if |ys| == 0 {
      assert xs + ys == xs;
    } else {
      var init := ys[..|ys| - 1];
      JoinedAppend(xs, init);
      assert (xs + ys)[..|xs + ys| - 1] == xs + init;
    }
  }

  /** `concat`: sums the lengths of the non-null parts, then copies each of them behind
      the previous one. The parts are left as they were. */
  method Concat(parts: seq<array?<byte>>) returns (out: array<byte>)
    ensures fresh(out)
    ensures out.Length == TotalLength(parts)
    ensures out[..] == Joined(parts)
  {
    var total := Total(parts);
    out := new byte[total];
    CopyParts(parts, out);
    JoinedLength(parts);
  }

  /** The first loop of `concat`: the summed length of the non-null parts. */
  method Total(parts: seq<array?<byte>>) returns (total: nat)
    ensures total == TotalLength(parts)
  {
    total := 0;
    for i := 0 to |parts|
      invariant total == TotalLength(parts[..i])
    {
      assert parts[..i + 1][..i] == parts[..i];
      if parts[i] != null {
        total := total + parts[i].Length;
      }
    }
    assert parts[..|parts|] == parts;
  }

  /** The second loop of `concat`: each non-null part copied at the cursor, which then
      moves past it. */
  method CopyParts(parts: seq<array?<byte>>, out: array<byte>)
    requires out.Length == TotalLength(parts)
    requires forall j :: 0 <= j < |parts| ==> parts[j] != out
    modifies out
    ensures out[..TotalLength(parts)] == Joined(parts)
  {
    var pos := 0;
    for i := 0 to |parts|
      invariant pos == TotalLength(parts[..i]) <= out.Length
      invariant out[..pos] == Joined(parts[..i])
    {
      var p := parts[i];
      assert parts[..i + 1][..i] == parts[..i];
      TotalGrows(parts, i + 1);
      ghost var before := out[..pos];
      if p != null {
        ArrayCopy(p, out, pos);
        assert out[..pos + p.Length] == before + p[..];
        pos := pos + p.Length;
      }
      assert out[..pos] == Joined(parts[..i + 1]);
    }
    assert parts[..|parts|] == parts;
  }

  /** Every prefix of the parts is no longer than all of them. */
  lemma {:induction false} TotalGrows(parts: seq<array?<byte>>, i: nat)
    requires i <= |parts|
    ensures TotalLength(parts[..i]) <= TotalLength(parts)
    decreases |parts| - i
  {
    if i < |parts| {
      TotalGrows(parts, i + 1);
      assert parts[..i + 1][..i] == parts[..i];
    } else {
      assert parts[..i] == parts;
    }
  }

  /** `System.arraycopy(src, 0, dst, pos, src.length)`. */
  method ArrayCopy(src: array<byte>, dst: array<byte>, pos: nat)
    requires src != dst && pos + src.Length <= dst.Length
    modifies dst
    ensures dst[..pos] == old(dst[..pos])
    ensures dst[pos..pos + src.Length] == src[..]
    ensures dst[pos + src.Length..] == old(dst[pos + src.Length..])
  {
    forall k | 0 <= k < src.Length {
      dst[pos + k] := src[k];
    }
  }

  // ---------------------------------------------------------------------------------
  // AES-GCM framing
  // ---------------------------------------------------------------------------------

  /** The cipher with its key and IV, as seen from the framing: encryption cannot fail;
      decryption can (a bad tag), with the cipher's own message. */
  type Seal = (seq<byte>, seq<byte>, seq<byte>) -> seq<byte>
  type Open = (seq<byte>, seq<byte>, seq<byte>) -> Result<seq<byte>, string>

  /** The sent bytes: the IV, then the cipher output. */
  function Frame(iv: seq<byte>, ciphertext: seq<byte>): (data: seq<byte>)
    requires |iv| == GCM_IV_BYTES
    ensures |data| == GCM_IV_BYTES + |ciphertext|
    ensures data[..GCM_IV_BYTES] == iv && data[GCM_IV_BYTES..] == ciphertext
  {
    iv + ciphertext
  }

  /** The split of `decryptAESGCM`: too short unless at least one byte follows the IV. */
  function Unframe(data: seq<byte>): (r: Result<(seq<byte>, seq<byte>), string>)
  {
    if |data| < GCM_IV_BYTES + 1 then Failure(TOO_SHORT)
    else Success((data[..GCM_IV_BYTES], data[GCM_IV_BYTES..]))
  }

  /** Splitting a frame gives back its IV and cipher output, unless there is no output. */
  lemma {:induction false} UnframeFrame(iv: seq<byte>, ciphertext: seq<byte>)
    requires |iv| == GCM_IV_BYTES
    ensures |ciphertext| > 0 ==> Unframe(Frame(iv, ciphertext)) == Success((iv, ciphertext))
    ensures |ciphertext| == 0 ==> Unframe(Frame(iv, ciphertext)) == Failure(TOO_SHORT)
  {
  }

  /** Whatever splits, framed again, is the input; exactly the inputs of at least 13 bytes
      split. */
  lemma {:induction false} FrameUnframe(data: seq<byte>)
    ensures Unframe(data).Success? <==> |data| >= GCM_IV_BYTES + 1
    ensures Unframe(data).Success? ==>
      |Unframe(data).value.0| == GCM_IV_BYTES
      && Frame(Unframe(data).value.0, Unframe(data).value.1) == data
  {
    if |data| >= GCM_IV_BYTES + 1 {
      assert data[..GCM_IV_BYTES] + data[GCM_IV_BYTES..] == data;
    }
  }

  /** `encryptAESGCM`, the IV drawn by the caller: the IV and the cipher output copied into
      one fresh array. */
  method EncryptAesGcm(key: seq<byte>, plaintext: seq<byte>, iv: array<byte>, seal: Seal) returns (result: array<byte>)
    requires iv.Length == GCM_IV_BYTES
    ensures fresh(result)
    ensures result[..] == Frame(iv[..], seal(key, iv[..], plaintext))
  {
    var ciphertext := FromSeq(seal(key, iv[..], plaintext));
    result := new byte[iv.Length + ciphertext.Length];
    ArrayCopy(iv, result, 0);
    ArrayCopy(ciphertext, result, iv.Length);
    assert result[..] == result[..iv.Length] + result[iv.Length..iv.Length + ciphertext.Length];
  }

  /** The bytes of a sequence in a fresh array. */
  method FromSeq(s: seq<byte>) returns (a: array<byte>)
    ensures fresh(a) && a[..] == s
  {
    a := new byte[|s|](i requires 0 <= i < |s| => s[i]);
  }

  /** `Arrays.copyOfRange(a, from, to)` with bounds inside the array. */
  method CopyOfRange(a: array<byte>, from: nat, to: nat) returns (b: array<byte>)
    requires from <= to <= a.Length
    ensures fresh(b) && b[..] == a[from..to]
  {
    b := new byte[to - from];
    forall k | 0 <= k < to - from {
      b[k] := a[from + k];
    }
  }

  /** What `decryptAESGCM` returns for some bytes: the error for a short input, otherwise
      what the cipher makes of the IV and the rest. */
  function Decrypted(key: seq<byte>, data: seq<byte>, open: Open): Result<seq<byte>, string> {
    match Unframe(data)
    case Failure(e) => Failure(e)
    case Success(parts) => open(key, parts.0, parts.1)
  }

  /** `decryptAESGCM`: rejects short inputs, then copies out the IV and the ciphertext. */
  method DecryptAesGcm(key: seq<byte>, data: array<byte>, open: Open) returns (r: Result<seq<byte>, string>)
    ensures r == Decrypted(key, data[..], open)
    ensures |data[..]| < GCM_IV_BYTES + 1 ==> r == Failure(TOO_SHORT)
  {
    if data.Length < GCM_IV_BYTES + 1 {
      return Failure(TOO_SHORT);
    }
    var iv := CopyOfRange(data, 0, GCM_IV_BYTES);
    var ciphertext := CopyOfRange(data, GCM_IV_BYTES, data.Length);
    assert iv[..] == data[..][..GCM_IV_BYTES] && ciphertext[..] == data[..][GCM_IV_BYTES..];
    r := open(key, iv[..], ciphertext[..]);
  }

  /** Decryption undoes encryption whenever the cipher does and produces some output: the
      framing neither loses nor moves a byte. */
  lemma {:induction false} DecryptEncrypt(key: seq<byte>, iv: seq<byte>, plaintext: seq<byte>, seal: Seal, open: Open)
    requires |iv| == GCM_IV_BYTES
    requires |seal(key, iv, plaintext)| > 0
    requires open(key, iv, seal(key, iv, plaintext)) == Success(plaintext)
    ensures Decrypted(key, Frame(iv, seal(key, iv, plaintext)), open) == Success(plaintext)
  {
    UnframeFrame(iv, seal(key, iv, plaintext));
  }
}
