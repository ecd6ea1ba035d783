/** Sealing round-2 packages from one participant to another. */
module DkgEncrypt {
  import opened Bytes
  import opened Wrappers
  import opened Ids
  import opened DkgNode

  type CeremonyId = Bytes16
  type Secret = Bytes32
  type PublicKey = Bytes32
  type XNonce = b: seq<byte> | |b| == 24 witness Zeros(24)

  const ENVELOPE_VERSION: byte := 1
  const HKDF_INFO_PREFIX := "tls-attestation/dkg-round2/v1"

  /** The primitives: X25519, HKDF-SHA256, XChaCha20-Poly1305, and the package's own JSON form. */
  datatype Crypto = Crypto(
    publicOf: Secret -> PublicKey,
    diffieHellman: (Secret, PublicKey) -> seq<byte>,
    hkdf: (seq<byte>, seq<byte>) -> seq<byte>,
    seal: (seq<byte>, XNonce, seq<byte>, seq<byte>) -> Option<seq<byte>>,
    open: (seq<byte>, XNonce, seq<byte>, seq<byte>) -> Option<seq<byte>>,
    pack: Round2Package -> seq<byte>,
    unpack: seq<byte> -> Option<Round2Package>)
  {
    /** Both ends of a key exchange agree, and opening undoes sealing. */
    ghost predicate Lawful() {
      && (forall a, b :: diffieHellman(a, publicOf(b)) == diffieHellman(b, publicOf(a)))
      && (forall k, n, m, aad :: seal(k, n, m, aad).Some? ==> open(k, n, seal(k, n, m, aad).value, aad) == Some(m))
      && (forall p :: unpack(pack(p)) == Some(p))
    }
  }

  datatype Envelope = Envelope(
    version: byte, ceremony: CeremonyId, sender: VerifierId, recipient: VerifierId, nonce: XNonce,
    ciphertext: seq<byte>)

  function Aad(ceremony: CeremonyId, sender: VerifierId, recipient: VerifierId): seq<byte> {
    [ENVELOPE_VERSION] + ceremony + sender + recipient
  }

  function Info(ceremony: CeremonyId, sender: VerifierId, recipient: VerifierId): seq<byte> {
    Ascii(HKDF_INFO_PREFIX) + ceremony + sender + recipient
  }

  function DeriveKey(c: Crypto, ours: Secret, theirs: PublicKey, ceremony: CeremonyId, sender: VerifierId,
                     recipient: VerifierId): seq<byte> {
    c.hkdf(c.diffieHellman(ours, theirs), Info(ceremony, sender, recipient))
  }

  function EncryptPackage(c: Crypto, package: Round2Package, ceremony: CeremonyId, senderKey: Secret,
                          sender: VerifierId, recipientPub: PublicKey, recipient: VerifierId,
                          nonce: XNonce): Option<Envelope>
  {
    var key := DeriveKey(c, senderKey, recipientPub, ceremony, sender, recipient);
    var ciphertext := c.seal(key, nonce, c.pack(package), Aad(ceremony, sender, recipient));
    if ciphertext.None? then None
    else Some(Envelope(ENVELOPE_VERSION, ceremony, sender, recipient, nonce, ciphertext.value))
  }

  function DecryptPackage(c: Crypto, e: Envelope, recipientKey: Secret, senderPub: PublicKey, ceremony: CeremonyId,
                          sender: VerifierId, recipient: VerifierId): Option<Round2Package>
  {
    if e.version != ENVELOPE_VERSION then None
    else if e.ceremony != ceremony || e.sender != sender || e.recipient != recipient then None
    else
      var key := DeriveKey(c, recipientKey, senderPub, ceremony, sender, recipient);
      var plain := c.open(key, e.nonce, e.ciphertext, Aad(ceremony, sender, recipient));
      if plain.None? then None else c.unpack(plain.value)
  }

  /**
   * A package comes out of an envelope exactly when the envelope is version 1 and labelled with this ceremony, sender
   * and recipient, the ciphertext opens under the key and the associated data for these, and what is inside unpacks.
   */
  lemma {:induction false} OpensExactly(c: Crypto, e: Envelope, recipientKey: Secret, senderPub: PublicKey,
                                        ceremony: CeremonyId, sender: VerifierId, recipient: VerifierId,
                                        package: Round2Package)
    ensures var labels := ceremony + sender + recipient;
            var info := Ascii("tls-attestation/dkg-round2/v1") + labels;
            var key := c.hkdf(c.diffieHellman(recipientKey, senderPub), info);
            var plain := c.open(key, e.nonce, e.ciphertext, [1] + labels);
            DecryptPackage(c, e, recipientKey, senderPub, ceremony, sender, recipient) == Some(package) <==>
              && e.version == 1 && (e.ceremony, e.sender, e.recipient) == (ceremony, sender, recipient)
              && plain.Some? && c.unpack(plain.value) == Some(package)
  {
    hide Ascii;
    var labels := ceremony + sender + recipient;
    assert Aad(ceremony, sender, recipient) == [1] + labels;
    assert Info(ceremony, sender, recipient) == Ascii("tls-attestation/dkg-round2/v1") + labels;
  }

  /**
   * A sealed package opens with the recipient's key to the same package in the ceremony and for the sender
   * and recipient it was sealed for, and is refused under any other.
   */
  lemma {:induction false} SealedPackageOpens(c: Crypto, package: Round2Package, ceremony: CeremonyId,
                                              senderKey: Secret, sender: VerifierId, recipientKey: Secret,
                                              recipient: VerifierId, nonce: XNonce, ceremony': CeremonyId,
                                              sender': VerifierId, recipient': VerifierId)
    requires c.Lawful()
    ensures var recipientPub := c.publicOf(recipientKey);
            var e := EncryptPackage(c, package, ceremony, senderKey, sender, recipientPub, recipient, nonce);
            var same := (ceremony', sender', recipient') == (ceremony, sender, recipient);
            e.Some? ==>
              DecryptPackage(c, e.value, recipientKey, c.publicOf(senderKey), ceremony', sender', recipient') ==
              (if same then Some(package) else None)
  {
    assert c.diffieHellman(senderKey, c.publicOf(recipientKey)) == c.diffieHellman(recipientKey, c.publicOf(senderKey));
  }

  /** The associated data and the key-derivation context each determine ceremony, sender and recipient. */
  lemma {:induction false} ContextInjective(c1: CeremonyId, s1: VerifierId, r1: VerifierId, c2: CeremonyId,
                                            s2: VerifierId, r2: VerifierId)
    ensures Aad(c1, s1, r1) == Aad(c2, s2, r2) <==> (c1, s1, r1) == (c2, s2, r2)
    ensures Info(c1, s1, r1) == Info(c2, s2, r2) <==> (c1, s1, r1) == (c2, s2, r2)
  {
    FixedFields([ENVELOPE_VERSION], c1, s1, r1);
    FixedFields([ENVELOPE_VERSION], c2, s2, r2);
    var prefix := Ascii(HKDF_INFO_PREFIX);
    FixedFields(prefix, c1, s1, r1);
    FixedFields(prefix, c2, s2, r2);
  }

  /** Two different inputs of the key derivation with the same key. */
  ghost predicate HkdfCollides(c: Crypto, shared1: seq<byte>, info1: seq<byte>, shared2: seq<byte>, info2: seq<byte>) {
    (shared1, info1) != (shared2, info2) && c.hkdf(shared1, info1) == c.hkdf(shared2, info2)
  }

  /** A derived key determines its ceremony, sender, recipient and shared secret, or these two inputs collide. */
  lemma {:induction false} KeyBinds(c: Crypto, a: Secret, b: PublicKey, ceremony: CeremonyId, sender: VerifierId,
                                    recipient: VerifierId, a': Secret, b': PublicKey, ceremony': CeremonyId,
                                    sender': VerifierId, recipient': VerifierId)
    requires DeriveKey(c, a, b, ceremony, sender, recipient) == DeriveKey(c, a', b', ceremony', sender', recipient')
    ensures HkdfCollides(c, c.diffieHellman(a, b), Info(ceremony, sender, recipient),
                         c.diffieHellman(a', b'), Info(ceremony', sender', recipient')) ||
            (&& (ceremony, sender, recipient) == (ceremony', sender', recipient')
             && c.diffieHellman(a, b) == c.diffieHellman(a', b'))
  {
    hide Info, Aad;
    ContextInjective(ceremony, sender, recipient, ceremony', sender', recipient');
  }

  /** One ciphertext that the cipher opens under two different associated data. */
  ghost predicate OpensTwice(c: Crypto, nonce: XNonce, ciphertext: seq<byte>, key1: seq<byte>, aad1: seq<byte>,
                             key2: seq<byte>, aad2: seq<byte>) {
    aad1 != aad2 && c.open(key1, nonce, ciphertext, aad1).Some? && c.open(key2, nonce, ciphertext, aad2).Some?
  }

  /**
   * An envelope whose ceremony, sender or recipient was changed in transit is refused, whoever tries to open it as
   * what it now claims to be, unless the cipher opens its one ciphertext under both associated data.
   */
  lemma {:induction false} RelabelledRefused(c: Crypto, package: Round2Package, ceremony: CeremonyId,
                                             senderKey: Secret, sender: VerifierId, recipientPub: PublicKey,
                                             recipient: VerifierId, nonce: XNonce, ceremony': CeremonyId,
                                             sender': VerifierId, recipient': VerifierId, key': Secret, pub': PublicKey)
    requires c.Lawful() && (ceremony', sender', recipient') != (ceremony, sender, recipient)
    ensures var sealed := EncryptPackage(c, package, ceremony, senderKey, sender, recipientPub, recipient, nonce);
            sealed.Some? ==>
              var relabelled := sealed.value.(ceremony := ceremony', sender := sender', recipient := recipient');
              DecryptPackage(c, relabelled, key', pub', ceremony', sender', recipient').None? ||
              OpensTwice(c, nonce, sealed.value.ciphertext,
                         DeriveKey(c, senderKey, recipientPub, ceremony, sender, recipient),
                         Aad(ceremony, sender, recipient),
                         DeriveKey(c, key', pub', ceremony', sender', recipient'),
                         Aad(ceremony', sender', recipient'))
  {
    hide Info, Aad;
    ContextInjective(ceremony, sender, recipient, ceremony', sender', recipient');
  }

  lemma {:induction false} FixedFields(prefix: seq<byte>, ceremony: CeremonyId, sender: VerifierId,
                                       recipient: VerifierId)
    ensures var all := prefix + ceremony + sender + recipient;
            var n := |prefix|;
            |all| == n + 80 && all[n..n + 16] == ceremony && all[n + 16..n + 48] == sender && all[n + 48..] == recipient
  {
  }
}
