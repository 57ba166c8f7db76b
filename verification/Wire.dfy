/** The bytes of the pallet's calls, written out. */
module Wire {
  import opened Types
  import opened Scale

  /** Four bytes, the least significant first. */
  lemma U32Bytes(x: u32)
    ensures EncodeU32(x) == [x % 256, x / 256 % 256, x / 0x1_0000 % 256, x / 0x100_0000]
  {
    assert x / 256 / 256 == x / 0x1_0000 && x / 256 / 256 / 256 == x / 0x100_0000;
  }

  /** A length takes the first of four forms that it fits; the form is in the low two bits. */
  lemma CompactBytes(n: u32)
    ensures n < 64 ==> EncodeCompact(n) == [4 * n]
    ensures 64 <= n < 0x4000 ==> EncodeCompact(n) == [4 * n % 256 + 1, n / 64]
    ensures 0x4000 <= n < 0x4000_0000 ==>
              EncodeCompact(n) == [4 * n % 256 + 2, n / 64 % 256, n / 0x4000 % 256, n / 0x40_0000]
    ensures 0x4000_0000 <= n ==>
              EncodeCompact(n) == [3, n % 256, n / 256 % 256, n / 0x1_0000 % 256, n / 0x100_0000]
  {
    if 64 <= n < 0x4000 {
      Quadrupled(n, 1);
    } else if 0x4000 <= n < 0x4000_0000 {
      U32Bytes(4 * n + 2);
      Quadrupled(n, 2);
    } else if 0x4000_0000 <= n {
      U32Bytes(n);
    }
  }

  /** The bytes of `4 * n + mode` in terms of `n`. */
  lemma Quadrupled(n: nat, mode: nat)
    requires mode < 4
    ensures (4 * n + mode) % 256 == 4 * n % 256 + mode && (4 * n + mode) / 256 == n / 64
    ensures (4 * n + mode) / 0x1_0000 == n / 0x4000 && (4 * n + mode) / 0x100_0000 == n / 0x40_0000
  {
    var q, r := n / 64, n % 64;
    LowByte(q, 4 * r);
    LowByte(q, 4 * r + mode);
    HigherBytes(4 * n + mode, q);
    assert n / 0x4000 == q / 256 && n / 0x40_0000 == q / 0x1_0000;
  }

  lemma LowByte(q: nat, low: nat)
    requires low < 256
    ensures (256 * q + low) / 256 == q && (256 * q + low) % 256 == low
  {}

  lemma HigherBytes(x: nat, q: nat)
    requires x / 256 == q
    ensures x / 0x1_0000 == q / 256 && x / 0x100_0000 == q / 0x1_0000
  {}

  /** The fields that three of the calls share: names with their lengths, age, gender. */
  lemma ProfileBytes(name: Bytes, surname: Bytes, age: u32, gender: Gender)
    ensures EncodeProfile(Profile(name, surname, age, gender)) ==
              EncodeCompact(|name|) + name + EncodeCompact(|surname|) + surname
              + [age % 256, age / 256 % 256, age / 0x1_0000 % 256, age / 0x100_0000]
              + [if gender == Male then 0 else if gender == Female then 1 else 2]
  {
    U32Bytes(age);
    var names := EncodeCompact(|name|) + name + EncodeCompact(|surname|) + surname;
    var tag := [if gender == Male then 0 else if gender == Female then 1 else 2];
    assert EncodeNames(name, surname) == names && EncodeGender(gender) == tag;
    assert names + (EncodeU32(age) + tag) == names + EncodeU32(age) + tag;
  }

  /** What a graduation sends: pallet 50, call 5, the student with its mark, the owner. */
  lemma ReceiveBytes(s: Student, newOwner: AccountId)
    ensures EncodeRuntimeCall(ReceiveStudent(s, newOwner)) ==
              [50, 5]
              + (EncodeCompact(|s.name|) + s.name + EncodeCompact(|s.surname|) + s.surname
                 + [s.age % 256, s.age / 256 % 256, s.age / 0x1_0000 % 256, s.age / 0x100_0000]
                 + [if s.gender == Male then 0 else if s.gender == Female then 1 else 2])
              + [if s.hasGraduated then 1 else 0] + newOwner
  {
    ProfileBytes(s.name, s.surname, s.age, s.gender);
    var profile, mark := EncodeProfile(Profile(s.name, s.surname, s.age, s.gender)), EncodeBool(s.hasGraduated);
    assert [50] + ([5] + ((profile + mark) + newOwner)) == [50, 5] + profile + mark + newOwner;
  }

  /** The same in bytes only, for names that take one length byte. */
  lemma ShortReceiveBytes(s: Student, newOwner: AccountId)
    requires |s.name| < 64 && |s.surname| < 64
    ensures EncodeRuntimeCall(ReceiveStudent(s, newOwner)) ==
              [50, 5]
              + ([4 * |s.name|] + s.name + [4 * |s.surname|] + s.surname
                 + [s.age % 256, s.age / 256 % 256, s.age / 0x1_0000 % 256, s.age / 0x100_0000]
                 + [if s.gender == Male then 0 else if s.gender == Female then 1 else 2])
              + [if s.hasGraduated then 1 else 0] + newOwner
  {
    ReceiveBytes(s, newOwner);
    CompactBytes(|s.name|);
    CompactBytes(|s.surname|);
  }

  lemma CreateBytes(name: Bytes, surname: Bytes, age: u32, gender: Gender)
    ensures EncodeRuntimeCall(CreateStudent(name, surname, age, gender)) ==
              [50, 0]
              + (EncodeCompact(|name|) + name + EncodeCompact(|surname|) + surname
                 + [age % 256, age / 256 % 256, age / 0x1_0000 % 256, age / 0x100_0000]
                 + [if gender == Male then 0 else if gender == Female then 1 else 2])
  {
    ProfileBytes(name, surname, age, gender);
    var profile := EncodeProfile(Profile(name, surname, age, gender));
    assert [50] + ([0] + profile) == [50, 0] + profile;
  }

  lemma UpdateBytes(id: u32, name: Bytes, surname: Bytes, age: u32, gender: Gender)
    ensures EncodeRuntimeCall(UpdateStudent(id, name, surname, age, gender)) ==
              [50, 4] + [id % 256, id / 256 % 256, id / 0x1_0000 % 256, id / 0x100_0000]
              + (EncodeCompact(|name|) + name + EncodeCompact(|surname|) + surname
                 + [age % 256, age / 256 % 256, age / 0x1_0000 % 256, age / 0x100_0000]
                 + [if gender == Male then 0 else if gender == Female then 1 else 2])
  {
    U32Bytes(id);
    ProfileBytes(name, surname, age, gender);
    var profile := EncodeProfile(Profile(name, surname, age, gender));
    assert [50] + ([4] + (EncodeU32(id) + profile)) == [50, 4] + EncodeU32(id) + profile;
  }

  lemma IdCallBytes(id: u32)
    ensures var bytes := [id % 256, id / 256 % 256, id / 0x1_0000 % 256, id / 0x100_0000];
            && EncodeRuntimeCall(GraduateStudent(id)) == [50, 1] + bytes
            && EncodeRuntimeCall(DeleteStudent(id)) == [50, 2] + bytes
            && EncodeRuntimeCall(DeleteAnyStudent(id)) == [50, 6] + bytes
  {
    U32Bytes(id);
    assert forall tag: byte :: [50] + ([tag] + EncodeU32(id)) == [50, tag] + EncodeU32(id);
  }

  /** No other call is accepted. */
  lemma AcceptedTags(cfg: Config, input: seq<byte>)
    requires DecodeCall(cfg, input).Parsed?
    ensures |input| > 0 && input[0] in {0, 1, 2, 4, 5, 6}
  {
    CallExact(cfg, input);
  }
}
