/** QCubed\Cryptography: symmetric encryption through openssl, optionally
    carrying its IV and an HMAC of the payload inside the encrypted text, and
    optionally base64url-encoded. The cipher, the HMAC, the IV length table
    and the random source are parameters: only the framing around them is
    modelled. */
module Crypto {
  import opened Php
  import TypeCast
  import Base64
  import QString

  /** The openssl and hash functions the class calls. */
  datatype OpenSsl = OpenSsl(
    /** openssl_cipher_iv_length(); None for the false it returns, with a
        warning, for a cipher openssl does not know */
    ivLength: string -> Option<nat>,
    /** openssl_random_pseudo_bytes() */
    randomBytes: nat -> string,
    /** openssl_encrypt(data, cipher, key, 0, iv) */
    encrypt: (string, string, string, string) -> string,
    /** openssl_decrypt(data, cipher, key, 0, iv); None when it returns false */
    decrypt: (string, string, string, string) -> Option<string>,
    /** hash_hmac('sha256', data, key) */
    hmac: (string, string) -> string)

  /** What the configuration and the class statics provide: the optional
      QCUBED_CRYPTOGRAPHY_DEFAULT_KEY and QCUBED_CRYPTOGRAPHY_DEFAULT_CIPHER
      constants, Cryptography::$Base64, and what Type::cast needs. */
  datatype Environment = Environment(
    defaultKey: Option<string>,
    defaultCipher: Option<string>,
    staticBase64: Value,
    castMode: int,
    host: TypeCast.Host)

  /** An instance: its fields are set by the constructor and never change. */
  datatype Cryptography = Cryptography(key: string, base64: bool, cipher: string, iv: Option<string>, ivHashKey: Option<string>)

  const DEFAULT_CIPHER: string := "AES-256-CBC"

  const NoKey: Exc := Exc(PlainException, "To use QCubed\\Cryptography, either pass in a key or define QCUBED_CRYPTOGRAPHY_DEFAULT_KEY in your config file")

  function UnknownCipher(cipher: string): Exc
  {
    Exc(CallerExc, "No Cipher with name " + cipher + " could be found in an openssl library")
  }

  const HashNotFound: Exc := Exc(CryptographyExc, "Hash value not found.")
  const Tampered: Exc := Exc(CryptographyExc, "Encryption tampering detected")
  const IvNotFound: Exc := Exc(CryptographyExc, "IV not found.")

  /** A string argument that PHP reads as true. */
  predicate TruthyText(s: Option<string>)
  {
    s.Some? && Truthy(Str(s.value))
  }

  /** The IV as the openssl and hex functions receive it: null becomes ''. */
  function IvText(iv: Option<string>): string
  {
    if iv.Some? then iv.value else ""
  }

  // ---------------------------------------------------------------- the constructor

  /** new Cryptography(key, base64, cipher, ivHashKey): the key from the
      argument or the configuration, the base64 flag through Type::cast, the
      cipher from the configuration, the argument or the default, and a fresh
      random IV unless the cipher needs none. An unknown cipher makes
      openssl_cipher_iv_length() warn and return false, which nothing
      catches and which the test `== 0` reads as "no IV needed". */
  function Configure(env: Environment, ssl: OpenSsl, key: Option<string>, base64: Option<bool>,
                     cipher: Option<string>, ivHashKey: Option<string>): (r: Outcome<Cryptography>)
    ensures key.None? && env.defaultKey.None? ==> r == Raise(NoKey)
    ensures r.Ok? ==> r.value.key == (if key.Some? then key.value else env.defaultKey.value)
    ensures r.Ok? ==> r.value.ivHashKey == ivHashKey
    ensures r.Ok? ==> r.value.cipher == ChosenCipher(env, cipher)
    ensures r.Ok? && ssl.ivLength(r.value.cipher).None? ==> r.value.iv.None?
  {
    if key.None? && env.defaultKey.None? then Raise(NoKey)
    else
      var k := if key.Some? then key.value else env.defaultKey.value;
      var flag :- TypeCast.CastIn(env.castMode, env.host, if base64.None? then env.staticBase64 else Bool(base64.value), TypeCast.BOOLEAN);
      var c := ChosenCipher(env, cipher);
      match ssl.ivLength(c)
      case None => Ok(Cryptography(k, Truthy(flag), c, None, ivHashKey))
      case Some(n) =>
        Ok(Cryptography(k, Truthy(flag), c, if n == 0 then None else Some(ssl.randomBytes(n)), ivHashKey))
  }

  /** The constructor as its comment and its catch block intend it: an
      unknown cipher raises Caller, anything else is as above. */
  function ConfigureChecked(env: Environment, ssl: OpenSsl, key: Option<string>, base64: Option<bool>,
                            cipher: Option<string>, ivHashKey: Option<string>): (r: Outcome<Cryptography>)
    ensures r.Ok? ==> ssl.ivLength(r.value.cipher).Some?
  {
    var made := Configure(env, ssl, key, base64, cipher, ivHashKey);
    if made.Ok? && ssl.ivLength(made.value.cipher).None? then Raise(UnknownCipher(made.value.cipher))
    else made
  }

  /** The cipher: the configuration constant first, then a truthy argument,
      then the default. */
  function ChosenCipher(env: Environment, cipher: Option<string>): (c: string)
    ensures env.defaultCipher.Some? ==> c == env.defaultCipher.value
    ensures env.defaultCipher.None? && TruthyText(cipher) ==> c == cipher.value
    ensures env.defaultCipher.None? && !TruthyText(cipher) ==> c == DEFAULT_CIPHER
  {
    if env.defaultCipher.Some? then env.defaultCipher.value
    else if TruthyText(cipher) then cipher.value
    else DEFAULT_CIPHER
  }

  /** As written, a cipher openssl does not know gives an instance without
      an IV rather than the Caller exception the catch block is there for. */
  lemma ConfigureUnknownCipher(env: Environment, ssl: OpenSsl, key: Option<string>, base64: Option<bool>,
                               cipher: Option<string>, ivHashKey: Option<string>, flag: Value)
    requires key.Some? || env.defaultKey.Some?
    requires TypeCast.CastIn(env.castMode, env.host, if base64.None? then env.staticBase64 else Bool(base64.value), TypeCast.BOOLEAN) == Ok(flag)
    requires ssl.ivLength(ChosenCipher(env, cipher)).None?
    ensures var r := Configure(env, ssl, key, base64, cipher, ivHashKey);
      r.Ok? && r.value.cipher == ChosenCipher(env, cipher) && r.value.iv.None?
  {
  }

  /** The intended constructor raises Caller for such a cipher. */
  lemma CheckedUnknownCipher(env: Environment, ssl: OpenSsl, key: Option<string>, base64: Option<bool>,
                             cipher: Option<string>, ivHashKey: Option<string>, flag: Value)
    requires key.Some? || env.defaultKey.Some?
    requires TypeCast.CastIn(env.castMode, env.host, if base64.None? then env.staticBase64 else Bool(base64.value), TypeCast.BOOLEAN) == Ok(flag)
    requires ssl.ivLength(ChosenCipher(env, cipher)).None?
    ensures ConfigureChecked(env, ssl, key, base64, cipher, ivHashKey) == Raise(UnknownCipher(ChosenCipher(env, cipher)))
  {
    ConfigureUnknownCipher(env, ssl, key, base64, cipher, ivHashKey, flag);
  }

  /** For every cipher openssl knows the intended constructor is the one as
      written. */
  lemma CheckedAgrees(env: Environment, ssl: OpenSsl, key: Option<string>, base64: Option<bool>,
                      cipher: Option<string>, ivHashKey: Option<string>)
    requires ssl.ivLength(ChosenCipher(env, cipher)).Some?
    ensures ConfigureChecked(env, ssl, key, base64, cipher, ivHashKey) == Configure(env, ssl, key, base64, cipher, ivHashKey)
  {
  }

  /** With a known cipher the instance uses it, takes the cast flag's
      truthiness, and has a null IV exactly when the cipher needs none and
      otherwise random bytes of the cipher's IV length. */
  lemma ConfigureKnownCipher(env: Environment, ssl: OpenSsl, key: Option<string>, base64: Option<bool>,
                             cipher: Option<string>, ivHashKey: Option<string>, flag: Value, n: nat)
    requires key.Some? || env.defaultKey.Some?
    requires TypeCast.CastIn(env.castMode, env.host, if base64.None? then env.staticBase64 else Bool(base64.value), TypeCast.BOOLEAN) == Ok(flag)
    requires ssl.ivLength(ChosenCipher(env, cipher)) == Some(n)
    ensures var r := Configure(env, ssl, key, base64, cipher, ivHashKey);
      r.Ok? && r.value.cipher == ChosenCipher(env, cipher) && r.value.base64 == Truthy(flag)
      && (r.value.iv.None? <==> n == 0)
      && (r.value.iv.Some? ==> r.value.iv.value == ssl.randomBytes(n))
  {
  }

  /** In the default mode a boolean argument is the flag itself. */
  lemma ConfigureBase64Flag(env: Environment, b: bool)
    requires env.castMode == TypeCast.CHECK_AND_CAST
    ensures TypeCast.CastIn(env.castMode, env.host, Bool(b), TypeCast.BOOLEAN) == Ok(Bool(b))
  {
    TypeCast.LowerOfLower(TypeCast.BOOLEAN);
    TypeCast.BooleanTarget(env.host, Bool(b), TypeCast.BOOLEAN);
  }

  // ---------------------------------------------------------------- bin2hex and hex2bin

  predicate IsHexChar(c: char)
  {
    '0' <= c <= '9' || 'a' <= c <= 'f'
  }

  function HexDigit(d: nat): (c: char)
    requires d < 16
    ensures IsHexChar(c)
  {
    if d < 10 then ('0' as int + d) as char else ('a' as int + d - 10) as char
  }

  /** The value of a hexadecimal digit in either case. */
  function HexValue(c: char): Option<nat>
  {
    if '0' <= c <= '9' then Some(c as int - '0' as int)
    else if 'a' <= c <= 'f' then Some(c as int - 'a' as int + 10)
    else if 'A' <= c <= 'F' then Some(c as int - 'A' as int + 10)
    else None
  }

  lemma HexValueOfDigit(d: nat)
    requires d < 16
    ensures HexValue(HexDigit(d)) == Some(d)
  {
  }

  /** bin2hex(): two lowercase digits per byte. */
  function Hex(s: string): (r: string)
    requires Base64.IsByteString(s)
    ensures |r| == 2 * |s|
    ensures forall i | 0 <= i < |r| :: IsHexChar(r[i])
  {
    if s == [] then []
    else
      Base64.ByteStringSuffix(s, 1);
      [HexDigit(s[0] as int / 16), HexDigit(s[0] as int % 16)] + Hex(s[1..])
  }

  /** hex2bin(): None (false) for an odd length or a non-hex character. */
  function HexDecode(t: string): (r: Option<string>)
    decreases |t|
  {
    if |t| % 2 != 0 then None
    else if t == [] then Some([])
    else
      match (HexValue(t[0]), HexValue(t[1]), HexDecode(t[2..]))
      case (Some(hi), Some(lo), Some(rest)) => Some([(hi * 16 + lo) as char] + rest)
      case _ => None
  }

  lemma {:induction false} HexRoundTrip(s: string)
    requires Base64.IsByteString(s)
    ensures HexDecode(Hex(s)) == Some(s)
  {
    if s != [] {
      Base64.ByteStringSuffix(s, 1);
      var b := s[0] as int;
      var h := Hex(s);
      assert h[2..] == Hex(s[1..]);
      HexValueOfDigit(b / 16);
      HexValueOfDigit(b % 16);
      HexRoundTrip(s[1..]);
      assert (b / 16 * 16 + b % 16) as char == s[0];
      assert [s[0]] + s[1..] == s;
    }
  }

  // ---------------------------------------------------------------- framing

  /** strrpos($s, $c) */
  function LastIndexOf(s: string, c: char): (r: Option<nat>)
    ensures r.None? ==> c !in s
    ensures r.Some? ==> r.value < |s| && s[r.value] == c && c !in s[r.value + 1..]
  {
    if s == [] then None
    else if s[|s| - 1] == c then Some(|s| - 1)
    else
      var r := LastIndexOf(s[..|s| - 1], c);
      assert r.Some? ==> s[r.value + 1..] == s[..|s| - 1][r.value + 1..] + [s[|s| - 1]];
      assert s == s[..|s| - 1] + [s[|s| - 1]];
      r
  }

  /** What encrypt() appends with an IV hash key: ':' and the hex IV, then ':'
      and the HMAC of everything before that second colon. */
  function Framed(ciphertext: string, iv: string, hashKey: string, hmac: (string, string) -> string): string
    requires Base64.IsByteString(iv)
  {
    var withIv := ciphertext + ":" + Hex(iv);
    withIv + ":" + hmac(withIv, hashKey)
  }

  /** The unframing in decrypt(): split at the last ':' and check the HMAC,
      then split at the last ':' of the rest for the IV. A colon at position
      0 counts as missing, because the source compares the position with null
      loosely. A hex IV that hex2bin() refuses is passed on as ''. */
  function Unframe(t: string, hashKey: string, hmac: (string, string) -> string): (r: Outcome<(string, string)>)
    ensures r.Raise? ==> r.exc.kind == CryptographyExc
  {
    match LastIndexOf(t, ':')
    case None => Raise(HashNotFound)
    case Some(offset) =>
      if offset == 0 then Raise(HashNotFound)
      else
        var rest := t[..offset];
        if t[offset + 1..] != hmac(rest, hashKey) then Raise(Tampered)
        else
          match LastIndexOf(rest, ':')
          case None => Raise(IvNotFound)
          case Some(offset2) =>
            if offset2 == 0 then Raise(IvNotFound)
            else
              var iv := HexDecode(rest[offset2 + 1..]);
              Ok((rest[..offset2], if iv.Some? then iv.value else ""))
  }

  /** Unframing a framed text gives back the ciphertext and the IV exactly,
      provided the ciphertext is not empty and the HMAC (a hex digest) holds
      no colon. */
  lemma UnframeFramed(ciphertext: string, iv: string, hashKey: string, hmac: (string, string) -> string)
    requires Base64.IsByteString(iv) && ciphertext != ""
    requires ':' !in hmac(ciphertext + ":" + Hex(iv), hashKey)
    ensures Unframe(Framed(ciphertext, iv, hashKey, hmac), hashKey, hmac) == Ok((ciphertext, iv))
  {
    var h := Hex(iv);
    var withIv := ciphertext + ":" + h;
    var mac := hmac(withIv, hashKey);
    var t := withIv + ":" + mac;
    ColonJoin(withIv, mac);
    LastColonAt(t, |withIv|);
    assert ':' !in h;
    ColonJoin(ciphertext, h);
    LastColonAt(withIv, |ciphertext|);
    HexRoundTrip(iv);
    UnframeAt(t, |withIv|, |ciphertext|, hashKey, hmac);
  }

  /** Unframe() once both colons are found and the HMAC matches. */
  lemma UnframeAt(t: string, k: nat, k2: nat, hashKey: string, hmac: (string, string) -> string)
    requires 0 < k < |t| && LastIndexOf(t, ':') == Some(k) && t[k + 1..] == hmac(t[..k], hashKey)
    requires 0 < k2 < k && LastIndexOf(t[..k], ':') == Some(k2)
    ensures var iv := HexDecode(t[..k][k2 + 1..]);
      Unframe(t, hashKey, hmac) == Ok((t[..k][..k2], if iv.Some? then iv.value else ""))
  {
  }

  /** The two sides of a text joined with ':' are the slices around it. */
  lemma ColonJoin(a: string, b: string)
    ensures var t := a + ":" + b;
      |t| == |a| + 1 + |b| && t[..|a|] == a && t[|a|] == ':' && t[|a| + 1..] == b
  {
    var t := a + ":" + b;
    assert t[..|a|] == a && t[|a| + 1..] == b;
  }

  /** A colon followed by colon-free text is the last one. */
  lemma LastColonAt(t: string, k: nat)
    requires k < |t| && t[k] == ':' && ':' !in t[k + 1..]
    ensures LastIndexOf(t, ':') == Some(k)
  {
    assert t[k] == ':';
  }

  /** A framed text whose HMAC part was changed is refused as tampered. */
  lemma TamperDetected(withIv: string, mac: string, hashKey: string, hmac: (string, string) -> string)
    requires withIv != "" && ':' !in mac && mac != hmac(withIv, hashKey)
    ensures Unframe(withIv + ":" + mac, hashKey, hmac) == Raise(Tampered)
  {
    var t := withIv + ":" + mac;
    assert t[..|withIv|] == withIv && t[|withIv| + 1..] == mac;
    LastColonAt(t, |withIv|);
  }

  /** Without a colon, or with only one at position 0, there is no hash. */
  lemma NoHashValue(t: string, hashKey: string, hmac: (string, string) -> string)
    requires ':' !in t || (t != [] && t[0] == ':' && ':' !in t[1..])
    ensures Unframe(t, hashKey, hmac) == Raise(HashNotFound)
  {
    if ':' in t {
      LastColonAt(t, 0);
    }
  }

  /** A correct HMAC over a text without a colon (an empty ciphertext, or the
      IV part missing) still fails: no IV. */
  lemma NoIv(rest: string, hashKey: string, hmac: (string, string) -> string)
    requires rest != "" && ':' !in rest && ':' !in hmac(rest, hashKey)
    ensures Unframe(rest + ":" + hmac(rest, hashKey), hashKey, hmac) == Raise(IvNotFound)
  {
    var t := rest + ":" + hmac(rest, hashKey);
    assert t[..|rest|] == rest && t[|rest| + 1..] == hmac(rest, hashKey);
    LastColonAt(t, |rest|);
  }

  // ---------------------------------------------------------------- encrypt and decrypt

  /** Whether the instance embeds the IV: a truthy IV hash key. */
  predicate HasHashKey(c: Cryptography)
  {
    TruthyText(c.ivHashKey)
  }

  /** openssl_encrypt() under the instance's settings. */
  function Ciphertext(c: Cryptography, ssl: OpenSsl, data: string): string
  {
    ssl.encrypt(data, c.cipher, c.key, IvText(c.iv))
  }

  /** The text encrypt() has before the base64 step. */
  function Payload(c: Cryptography, ssl: OpenSsl, data: string): string
    requires Base64.IsByteString(IvText(c.iv))
  {
    if HasHashKey(c) then Framed(Ciphertext(c, ssl, data), IvText(c.iv), c.ivHashKey.value, ssl.hmac)
    else Ciphertext(c, ssl, data)
  }

  /** encrypt() */
  function Encrypt(c: Cryptography, ssl: OpenSsl, data: string): (r: string)
    requires Base64.IsByteString(IvText(c.iv)) && Base64.IsByteString(Payload(c, ssl, data))
    ensures !c.base64 ==> r == Payload(c, ssl, data)
    ensures c.base64 ==> forall i | 0 <= i < |r| :: QString.IsUrlSafeChar(r[i])
  {
    if c.base64 then
      QString.UrlSafeAlphabet(Payload(c, ssl, data));
      QString.Base64UrlSafeEncode(Payload(c, ssl, data))
    else Payload(c, ssl, data)
  }

  /** decrypt(): undo the base64 step, take the IV from the text or from the
      instance, and hand the rest to openssl_decrypt(). Only the unframing
      can raise; a failing openssl_decrypt() gives ''. */
  function Decrypt(c: Cryptography, ssl: OpenSsl, t: string): (r: Outcome<string>)
    ensures r.Raise? ==> HasHashKey(c) && r.exc.kind == CryptographyExc
    ensures !HasHashKey(c) && !c.base64 ==>
      (ssl.decrypt(t, c.cipher, c.key, IvText(c.iv)).Some? ==> r == Ok(ssl.decrypt(t, c.cipher, c.key, IvText(c.iv)).value))
      && (ssl.decrypt(t, c.cipher, c.key, IvText(c.iv)).None? ==> r == Ok(""))
  {
    var d := if c.base64 then QString.Base64UrlSafeDecode(t) else t;
    var (ciphertext, iv) :- if HasHashKey(c) then Unframe(d, c.ivHashKey.value, ssl.hmac) else Ok((d, IvText(c.iv)));
    Ok(Opened(c, ssl, ciphertext, iv))
  }

  /** What decrypt() returns for a ciphertext and IV: the result of
      openssl_decrypt(), whose false the string return type of decrypt()
      coerces to '' (the file does not declare strict types). */
  function Opened(c: Cryptography, ssl: OpenSsl, ciphertext: string, iv: string): string
  {
    match ssl.decrypt(ciphertext, c.cipher, c.key, iv)
    case None => ""
    case Some(plain) => plain
  }

  /** decrypt(encrypt(data)) hands openssl_decrypt() exactly the ciphertext
      and the IV that openssl_encrypt() used, with or without the embedded
      IV and the base64 step. Needed: a non-empty ciphertext and a colon-free
      HMAC when the IV is embedded, and a ciphertext other than "0" (which
      base64UrlSafeDecode() turns into '') when it is only base64-encoded. */
  lemma EncryptDecrypt(c: Cryptography, ssl: OpenSsl, data: string)
    requires Base64.IsByteString(IvText(c.iv)) && Base64.IsByteString(Payload(c, ssl, data))
    requires HasHashKey(c) ==>
      Ciphertext(c, ssl, data) != "" && ':' !in ssl.hmac(Ciphertext(c, ssl, data) + ":" + Hex(IvText(c.iv)), c.ivHashKey.value)
    requires !HasHashKey(c) && c.base64 ==> Ciphertext(c, ssl, data) != "0"
    ensures Decrypt(c, ssl, Encrypt(c, ssl, data)) == Ok(Opened(c, ssl, Ciphertext(c, ssl, data), IvText(c.iv)))
  {
    var p := Payload(c, ssl, data);
    if c.base64 {
      QString.UrlSafeRoundTrip(p);
      if HasHashKey(c) {
        var withIv := Ciphertext(c, ssl, data) + ":" + Hex(IvText(c.iv));
        assert p[|withIv|] == ':';
      }
      assert QString.Base64UrlSafeDecode(Encrypt(c, ssl, data)) == p;
    }
    if HasHashKey(c) {
      UnframeFramed(Ciphertext(c, ssl, data), IvText(c.iv), c.ivHashKey.value, ssl.hmac);
    }
  }
}
