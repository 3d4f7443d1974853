/** An example of key derivation: the masked buffers of the password "ab" with the salt "c". */
module EncryptorExamples {
  import Sha1Spec
  import opened Encryptor
  import opened Sha1Examples

  function Inner(): seq<byte> {
    [0x9f, 0xaf, 0x08, 0x00, 0x71, 0x30, 0xb7, 0x5c, 0x8c, 0x08,
     0x13, 0x47, 0x4e, 0x66, 0xf4, 0x5a, 0xaa, 0xe6, 0xee, 0xab]
    + seq(44, _ => 0x36)
  }

  function Outer(): seq<byte> {
    [0xf5, 0xc5, 0x62, 0x6a, 0x1b, 0x5a, 0xdd, 0x36, 0xe6, 0x62,
     0x79, 0x2d, 0x24, 0x0c, 0x9e, 0x30, 0xc0, 0x8c, 0x84, 0xc1]
    + seq(44, _ => 0x5c)
  }

  lemma MaskedInner()
    ensures |Inner()| == 64
    ensures forall i | 0 <= i < 64 :: Inner()[i] == if i < 20 then 0x36 ^ Sha1Spec.Digest(ABC())[i] else 0x36
  {
    hide Sha1Spec.Digest;
    KnownAnswer();
    var hash := Sha1Spec.Digest(ABC());
    var buffer := Inner();
    assert forall i | 20 <= i < 64 :: buffer[i] == 0x36;
    assert buffer[0] == 0x36 ^ hash[0];
    assert buffer[1] == 0x36 ^ hash[1];
    assert buffer[2] == 0x36 ^ hash[2];
    assert buffer[3] == 0x36 ^ hash[3];
    assert buffer[4] == 0x36 ^ hash[4];
    assert buffer[5] == 0x36 ^ hash[5];
    assert buffer[6] == 0x36 ^ hash[6];
    assert buffer[7] == 0x36 ^ hash[7];
    assert buffer[8] == 0x36 ^ hash[8];
    assert buffer[9] == 0x36 ^ hash[9];
    assert buffer[10] == 0x36 ^ hash[10];
    assert buffer[11] == 0x36 ^ hash[11];
    assert buffer[12] == 0x36 ^ hash[12];
    assert buffer[13] == 0x36 ^ hash[13];
    assert buffer[14] == 0x36 ^ hash[14];
    assert buffer[15] == 0x36 ^ hash[15];
    assert buffer[16] == 0x36 ^ hash[16];
    assert buffer[17] == 0x36 ^ hash[17];
    assert buffer[18] == 0x36 ^ hash[18];
    assert buffer[19] == 0x36 ^ hash[19];
  }

  lemma MaskedOuter()
    ensures |Outer()| == 64
    ensures forall i | 0 <= i < 64 :: Outer()[i] == if i < 20 then 0x5c ^ Sha1Spec.Digest(ABC())[i] else 0x5c
  {
    hide Sha1Spec.Digest;
    KnownAnswer();
    var hash := Sha1Spec.Digest(ABC());
    var buffer := Outer();
    assert forall i | 20 <= i < 64 :: buffer[i] == 0x5c;
    assert buffer[0] == 0x5c ^ hash[0];
    assert buffer[1] == 0x5c ^ hash[1];
    assert buffer[2] == 0x5c ^ hash[2];
    assert buffer[3] == 0x5c ^ hash[3];
    assert buffer[4] == 0x5c ^ hash[4];
    assert buffer[5] == 0x5c ^ hash[5];
    assert buffer[6] == 0x5c ^ hash[6];
    assert buffer[7] == 0x5c ^ hash[7];
    assert buffer[8] == 0x5c ^ hash[8];
    assert buffer[9] == 0x5c ^ hash[9];
    assert buffer[10] == 0x5c ^ hash[10];
    assert buffer[11] == 0x5c ^ hash[11];
    assert buffer[12] == 0x5c ^ hash[12];
    assert buffer[13] == 0x5c ^ hash[13];
    assert buffer[14] == 0x5c ^ hash[14];
    assert buffer[15] == 0x5c ^ hash[15];
    assert buffer[16] == 0x5c ^ hash[16];
    assert buffer[17] == 0x5c ^ hash[17];
    assert buffer[18] == 0x5c ^ hash[18];
    assert buffer[19] == 0x5c ^ hash[19];
  }

  lemma MaskedBuffersOfAbc()
    ensures DerivedBytes([0x61, 0x62] + [0x63]) == Sha1Spec.Digest(Inner()) + Sha1Spec.Digest(Outer())
  {
    hide Sha1Spec.Digest, DerivedBytes, Inner, Outer;
    assert [0x61, 0x62] + [0x63] == ABC();
    MaskedInner();
    MaskedOuter();
    DerivedFromMaskedBuffers(ABC(), Inner(), Outer());
  }
}
