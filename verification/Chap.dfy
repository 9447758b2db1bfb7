// lib/chap.c: the digest over message, random and password that protects the
// layer-2 packets.
module Chap {
  import opened Common
  import opened Words
  import opened Chaining
  import opened Md5Stream
  import opened Padding
  import opened Rfc1321

  // A uint32_t as the host stores it; only its bytes enter the digest.
  type Stored = b: seq<Byte> | |b| == 4 witness Zeros(4)

  const CHAP_LEN := 16
  const CHAP_AT := 4    // offset of chap in the packed msg_head_t
  const CHAP_END := 20

  // ---- what the digest field of a packet means --------------------------

  // The packet with its chap field set to the given bytes.
  function WithChap(m: seq<Byte>, chap: seq<Byte>): (r: seq<Byte>)
    requires |m| >= CHAP_END && |chap| == CHAP_LEN
    ensures |r| == |m| && r[CHAP_AT..CHAP_END] == chap
    ensures r[..CHAP_AT] == m[..CHAP_AT] && r[CHAP_END..] == m[CHAP_END..]
  {
    m[..CHAP_AT] + chap + m[CHAP_END..]
  }

  // MD5 of the packet with a zero chap field, the random and the password.
  function PacketDigest(m: seq<Byte>, random: Stored, passwd: seq<Byte>): (d: seq<Byte>)
    requires |m| >= CHAP_END
    ensures |d| == CHAP_LEN
  {
    Digest(WithChap(m, Zeros(CHAP_LEN)) + random + passwd)
  }

  ghost predicate Authentic(m: seq<Byte>, random: Stored, passwd: seq<Byte>)
    requires |m| >= CHAP_END
  {
    m[CHAP_AT..CHAP_END] == PacketDigest(m, random, passwd)
  }

  lemma WithChapTwice(m: seq<Byte>, chap: seq<Byte>, chap': seq<Byte>)
    requires |m| >= CHAP_END && |chap| == |chap'| == CHAP_LEN
    ensures WithChap(WithChap(m, chap), chap') == WithChap(m, chap')
  {
  }

  lemma WithChapPrefix(m: seq<Byte>, chap: seq<Byte>, len: nat)
    requires CHAP_END <= len <= |m| && |chap| == CHAP_LEN
    ensures WithChap(m, chap)[..len] == WithChap(m[..len], chap)
    ensures m[..len][CHAP_AT..CHAP_END] == m[CHAP_AT..CHAP_END]
  {
  }

  // A filled packet passes the comparison, and what was in the field before
  // filling does not matter.
  lemma FilledIsAuthentic(m: seq<Byte>, chap: seq<Byte>, random: Stored, passwd: seq<Byte>)
    requires |m| >= CHAP_END && |chap| == CHAP_LEN
    ensures Authentic(WithChap(m, PacketDigest(m, random, passwd)), random, passwd)
    ensures PacketDigest(WithChap(m, chap), random, passwd) == PacketDigest(m, random, passwd)
  {
  }

  // Comparing leaves the field zero, so a packet passes a second comparison
  // exactly when its digest is zero.
  lemma SecondComparison(m: seq<Byte>, random: Stored, passwd: seq<Byte>)
    requires |m| >= CHAP_END
    ensures Authentic(WithChap(m, Zeros(CHAP_LEN)), random, passwd) <==>
            PacketDigest(m, random, passwd) == Zeros(CHAP_LEN)
  {
  }

  // ---- the fields of a packet --------------------------------------------

  const UUID_LEN := 50
  const ETH_ALEN := 6

  // struct msg_head_t
  datatype Header = Header(random: Stored, chap: seq<Byte>, acuuid: seq<Byte>, mac: seq<Byte>, msgType: Stored) {
    predicate Fits() { |chap| == CHAP_LEN && |acuuid| == UUID_LEN && |mac| == ETH_ALEN }

    // The fields are packed in this order.
    function Bytes(): seq<Byte> { random + chap + acuuid + mac + msgType }

    // MD5 of the packet with its chap field zero, the random and the password.
    function Seal(payload: seq<Byte>, key: Stored, passwd: seq<Byte>): (d: seq<Byte>)
      ensures |d| == CHAP_LEN
    {
      Digest(this.(chap := Zeros(CHAP_LEN)).Bytes() + payload + key + passwd)
    }
  }

  // The packet is this header and this payload.
  ghost predicate Carries(m: seq<Byte>, h: Header, payload: seq<Byte>) { h.Fits() && m == h.Bytes() + payload }

  // A packet has one header and one payload.
  lemma CarriesOne(m: seq<Byte>, h: Header, payload: seq<Byte>, h': Header, payload': seq<Byte>)
    requires Carries(m, h, payload) && Carries(m, h', payload')
    ensures h == h' && payload == payload'
  {
    FieldsAt(h, payload);
    FieldsAt(h', payload');
  }

  lemma FieldsAt(h: Header, payload: seq<Byte>)
    requires h.Fits()
    ensures var m := h.Bytes() + payload;
            && |m| == 80 + |payload| && m[..4] == h.random && m[4..20] == h.chap && m[20..70] == h.acuuid
            && m[70..76] == h.mac && m[76..80] == h.msgType && m[80..] == payload
  {
  }

  // Setting the field sets that of the header, and no other.
  lemma SetsChapOnly(m: seq<Byte>, h: Header, payload: seq<Byte>, chap: seq<Byte>)
    requires Carries(m, h, payload) && |chap| == CHAP_LEN
    ensures |m| >= CHAP_END && m[CHAP_AT..CHAP_END] == h.chap
    ensures Carries(WithChap(m, chap), h.(chap := chap), payload)
  {
    FieldsAt(h, payload);
    assert WithChap(m, chap) == h.random + chap + m[20..];
    assert m[20..] == h.acuuid + h.mac + h.msgType + payload;
  }

  // The digest of a packet is that of its header and payload, and it is authentic
  // exactly when that is what the header says.
  lemma SealsHeader(m: seq<Byte>, h: Header, payload: seq<Byte>, key: Stored, passwd: seq<Byte>)
    requires Carries(m, h, payload)
    ensures |m| >= CHAP_END && PacketDigest(m, key, passwd) == h.Seal(payload, key, passwd)
    ensures Authentic(m, key, passwd) <==> h.chap == h.Seal(payload, key, passwd)
  {
    SetsChapOnly(m, h, payload, Zeros(CHAP_LEN));
  }

  // ---- the code ----------------------------------------------------------

  // The three updates of chap_get_md5.
  method Feed(md5: Stream, data: seq<Byte>, random: Stored, passwd: seq<Byte>)
    requires md5.Valid() && md5.fed == [] && Compresses(md5.transform)
    requires |data| < WORD - 64 && |passwd| < WORD - 64
    modifies md5, md5.count, md5.buffer, md5.state
    ensures md5.Valid() && md5.fed == data + random + passwd
  {
    ShortInputFits(0, |data|);
    md5.Update(data);
    assert md5.fed == data;
    ShortInputFits(|md5.fed| % 64, |random|);
    md5.Update(random);
    assert md5.fed == data + random;
    ShortInputFits(|md5.fed| % 64, |passwd|);
    md5.Update(passwd);
  }

  // chap_get_md5, with the password as a parameter.
  method ChapGetMd5(data: seq<Byte>, random: Stored, passwd: seq<Byte>, decrypt: array<Byte>)
    requires |data| < WORD - 64 && |passwd| < WORD - 64 && decrypt.Length == CHAP_LEN
    modifies decrypt
    ensures decrypt[..] == Digest(data + random + passwd)
  {
    var md5 := new Stream.Init(Compress);
    Feed(md5, data, random, passwd);
    MD5Final(md5, decrypt);
  }

  method Memcmp(a: seq<Byte>, b: seq<Byte>) returns (ret: int)
    requires |a| == |b|
    ensures ret == 0 <==> a == b
  {
    for i := 0 to |a|
      invariant a[..i] == b[..i]
    {
      if a[i] != b[i] {
        return if a[i] < b[i] then -1 else 1;
      }
    }
    return 0;
  }

  // chap_cmp_md5; `memory` says whether its malloc succeeds.
  method ChapCmpMd5(data: seq<Byte>, random: Stored, passwd: seq<Byte>, oldmd5: seq<Byte>, memory: bool)
    returns (ret: int)
    requires |data| < WORD - 64 && |passwd| < WORD - 64 && |oldmd5| == CHAP_LEN
    ensures !memory ==> ret == -1
    ensures ret == 0 <==> memory && oldmd5 == Digest(data + random + passwd)
  {
    if !memory {
      return -1;
    }
    var decrypt := new Byte[CHAP_LEN];
    ChapGetMd5(data, random, passwd, decrypt);
    ret := Memcmp(decrypt[..], oldmd5);
  }

  // The memset or memcpy that overwrites msg->chap.
  method SetChap(msg: array<Byte>, chap: seq<Byte>)
    requires CHAP_END <= msg.Length && |chap| == CHAP_LEN
    modifies msg
    ensures msg[..] == WithChap(old(msg[..]), chap)
  {
    Memcpy(msg, CHAP_AT, chap);
  }

  method ChapMsgCmpMd5(msg: array<Byte>, len: nat, random: Stored, passwd: seq<Byte>, memory: bool) returns (ret: int)
    requires CHAP_END <= len <= msg.Length && len < WORD - 64 && |passwd| < WORD - 64
    modifies msg
    ensures ret == 0 <==> memory && Authentic(old(msg[..len]), random, passwd)
    ensures msg[..] == WithChap(old(msg[..]), Zeros(CHAP_LEN))
    ensures forall h, payload :: Carries(old(msg[..len]), h, payload) ==>
              && (ret == 0 <==> memory && h.chap == h.Seal(payload, random, passwd))
              && Carries(msg[..len], h.(chap := Zeros(CHAP_LEN)), payload)
  {
    var oldmd5 := msg[CHAP_AT..CHAP_END];
    ghost var m := msg[..];
    SetChap(msg, Zeros(CHAP_LEN));
    WithChapPrefix(m, Zeros(CHAP_LEN), len);
    ret := ChapCmpMd5(msg[..len], random, passwd, oldmd5, memory);
    forall h, payload | Carries(m[..len], h, payload)
      ensures ret == 0 <==> memory && h.chap == h.Seal(payload, random, passwd)
      ensures Carries(msg[..len], h.(chap := Zeros(CHAP_LEN)), payload)
    {
      SealsHeader(m[..len], h, payload, random, passwd);
      SetsChapOnly(m[..len], h, payload, Zeros(CHAP_LEN));
    }
  }

  method ChapFillMsgMd5(msg: array<Byte>, len: nat, random: Stored, passwd: seq<Byte>)
    requires CHAP_END <= len <= msg.Length && len < WORD - 64 && |passwd| < WORD - 64
    modifies msg
    ensures msg[..] == WithChap(old(msg[..]), PacketDigest(old(msg[..len]), random, passwd))
    ensures forall h, payload :: Carries(old(msg[..len]), h, payload) ==>
              Carries(msg[..len], h.(chap := h.Seal(payload, random, passwd)), payload)
  {
    ghost var m := msg[..];
    SetChap(msg, Zeros(CHAP_LEN));
    WithChapPrefix(m, Zeros(CHAP_LEN), len);
    var digest := new Byte[CHAP_LEN];
    ChapGetMd5(msg[..len], random, passwd, digest);
    SetChap(msg, digest[..]);
    WithChapTwice(m, Zeros(CHAP_LEN), digest[..]);
    WithChapPrefix(m, digest[..], len);
    forall h, payload | Carries(m[..len], h, payload)
      ensures Carries(msg[..len], h.(chap := h.Seal(payload, random, passwd)), payload)
    {
      SealsHeader(m[..len], h, payload, random, passwd);
      SetsChapOnly(m[..len], h, payload, digest[..]);
    }
  }
}
