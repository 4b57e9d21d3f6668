/**
 * `decrypt.ts`: the key-stretching helper and the parsing and error wrapping of `decryptData`.
 * The cipher itself (Base64 decoding of the IV, the SHA-256 key, AES-256-CBC with PKCS#7 and the
 * UTF-8 decoding of the plaintext) is a parameter.
 */
module Decrypt {
  import opened Wrappers
  import Js
  import opened Text

  const KeyLength: nat := 32

  /** The one error `decryptData` ever throws: "解密失败" ("decryption failed"). */
  const DecryptFailure: string := "\U{89E3}\U{5BC6}\U{5931}\U{8D25}"

  /** `s.padEnd(n, c)` for a one-character pad string. */
  function PadEnd(s: string, n: nat, c: char): (r: string)
    ensures |r| == if |s| >= n then |s| else n
    ensures r[..|s|] == s
    ensures forall i :: |s| <= i < |r| ==> r[i] == c
    decreases n - |s|
  {
    if |s| >= n then s else PadEnd(s + [c], n, c)
  }

  /** `expandKey(key)`: the first 32 characters of a long key, or a short key padded with spaces. */
  function ExpandKey(key: string): (r: string)
    ensures |r| == KeyLength
    ensures |key| >= KeyLength ==> r == key[..KeyLength]
    ensures |key| < KeyLength ==> r[..|key|] == key && forall i :: |key| <= i < KeyLength ==> r[i] == ' '
  {
    if |key| >= KeyLength then key[..KeyLength] else PadEnd(key, KeyLength, ' ')
  }

  /** Expanding an expanded key changes nothing. */
  lemma ExpandKeyIdempotent(key: string)
    ensures ExpandKey(ExpandKey(key)) == ExpandKey(key)
  {
  }

  /**
   * `const [ivBase64, encrypted] = encryptedData.split(':')`: the first field, and the second
   * one when there is one (`undefined` otherwise).
   */
  function Fields(encrypted: string): (f: (string, Option<string>))
  {
    var parts := Split(encrypted, ':');
    (parts[0], if |parts| > 1 then Some(parts[1]) else None)
  }

  /**
   * `decryptData`: `aes(iv, ciphertext)` is the plaintext, or `None` when any crypto step
   * throws; `parse` is `JSON.parse`. Every failure becomes the same error.
   */
  function DecryptData(encrypted: string, aes: (string, Option<string>) -> Option<string>,
                       parse: string -> Option<Js.Value>): (r: Result<Js.Value, string>)
    ensures r.Failure? ==> r.error == DecryptFailure
    ensures r.Success? <==>
      aes(Fields(encrypted).0, Fields(encrypted).1).Some? &&
      parse(aes(Fields(encrypted).0, Fields(encrypted).1).value).Some?
    ensures r.Success? ==> r.value == parse(aes(Fields(encrypted).0, Fields(encrypted).1).value).value
  {
    var (iv, ciphertext) := Fields(encrypted);
    match aes(iv, ciphertext)
    case None => Failure(DecryptFailure)
    case Some(plain) =>
      match parse(plain)
      case None => Failure(DecryptFailure)
      case Some(v) => Success(v)
  }

  /** For `iv:ciphertext:rest`, the IV and ciphertext are the first two fields; `rest` is ignored. */
  lemma FieldsOfThree(iv: string, ciphertext: string, rest: string)
    requires ':' !in iv && ':' !in ciphertext
    ensures Fields(iv + ":" + ciphertext + ":" + rest) == (iv, Some(ciphertext))
    ensures Fields(iv + ":" + ciphertext) == (iv, Some(ciphertext))
  {
    assert iv + ":" + ciphertext + ":" + rest == iv + [':'] + (ciphertext + [':'] + rest);
    SplitAfterSeparator(iv, ciphertext + [':'] + rest, ':');
    SplitAfterSeparator(ciphertext, rest, ':');
    assert iv + ":" + ciphertext == iv + [':'] + ciphertext;
    SplitAfterSeparator(iv, ciphertext, ':');
    SplitWithoutSeparator(ciphertext, ':');
  }

  /** Fields after the second `:` make no difference to the result. */
  lemma LaterFieldsIgnored(iv: string, ciphertext: string, rest: string,
                           aes: (string, Option<string>) -> Option<string>, parse: string -> Option<Js.Value>)
    requires ':' !in iv && ':' !in ciphertext
    ensures DecryptData(iv + ":" + ciphertext + ":" + rest, aes, parse) ==
            DecryptData(iv + ":" + ciphertext, aes, parse)
  {
    FieldsOfThree(iv, ciphertext, rest);
  }

  /** Without any `:`, the whole input is taken as the IV and the ciphertext is `undefined`. */
  lemma NoSeparatorField(encrypted: string)
    requires ':' !in encrypted
    ensures Fields(encrypted) == (encrypted, None)
  {
    SplitWithoutSeparator(encrypted, ':');
  }
}
