/**
 * The SCALE byte format of the pallet's calls (Polkadot Protocol Specification,
 * appendix A.2.2): the format in which a graduation travels inside `Transact`.
 * Every decoder returns the value together with the bytes it did not use.
 */
module Scale {
  import opened Types

  datatype Parsed<+T> = Malformed | Parsed(value: T, rest: seq<byte>) {
    predicate IsFailure() {
      Malformed?
    }

    function PropagateFailure<U>(): Parsed<U>
      requires Malformed?
    {
      Malformed
    }

    function Extract(): (T, seq<byte>)
      requires Parsed?
    {
      (value, rest)
    }
  }

  /** Where a call of the runtime goes; only the template pallet's calls are spelled out. */
  datatype RuntimeCall = TemplatePallet(call: Call) | OtherPallet(index: byte)

  const TEMPLATE_PALLET_INDEX: byte := 50

  // Fixed-width and compact integers

  function EncodeU32(x: u32): (r: seq<byte>)
    ensures |r| == 4
  {
    [x % 256, x / 256 % 256, x / 256 / 256 % 256, x / 256 / 256 / 256]
  }

  function DecodeU32(input: seq<byte>): Parsed<u32> {
    if |input| < 4 then Malformed
    else Parsed(LittleEndian(input[0], input[1], input[2], input[3]), input[4..])
  }

  function LittleEndian(b0: int, b1: int, b2: int, b3: int): int {
    b0 + 256 * (b1 + 256 * (b2 + 256 * b3))
  }

  /** One, two, four or five bytes; the low two bits of the first say which. */
  function EncodeCompact(n: u32): (r: seq<byte>)
    ensures |r| >= 1
  {
    if n < 0x40 then [4 * n]
    else if n < 0x4000 then [(4 * n + 1) % 256, (4 * n + 1) / 256]
    else if n < 0x4000_0000 then EncodeU32(4 * n + 2)
    else [3] + EncodeU32(n)
  }

  /** A longer form than the value needs is refused. */
  function DecodeCompact(input: seq<byte>): Parsed<u32> {
    if |input| == 0 then Malformed
    else if input[0] % 4 == 0 then Parsed(input[0] / 4, input[1..])
    else if input[0] % 4 == 1 then
      if |input| < 2 then Malformed
      else
        var n := LittleEndian(input[0], input[1], 0, 0) / 4;
        if n < 0x40 then Malformed else Parsed(n, input[2..])
    else if input[0] % 4 == 2 then
      var (wide, rest) :- DecodeU32(input);
      if wide / 4 < 0x4000 then Malformed else Parsed(wide / 4, rest)
    else if input[0] != 3 then Malformed
    else
      var (n, rest) :- DecodeU32(input[1..]);
      if n < 0x4000_0000 then Malformed else Parsed(n, rest)
  }

  // Fields

  function EncodeBytes(v: Bytes): seq<byte>
  {
    EncodeCompact(|v|) + v
  }

  /** A vector longer than `bound` is refused. */
  function DecodeBytes(bound: u32, input: seq<byte>): (r: Parsed<Bytes>)
    ensures r.Parsed? ==> |r.value| <= bound
  {
    var (n, rest) :- DecodeCompact(input);
    if n > bound || n > |rest| then Malformed else Parsed(rest[..n], rest[n..])
  }

  function EncodeGender(g: Gender): seq<byte> {
    match g
    case Male => [0]
    case Female => [1]
    case Other => [2]
  }

  function DecodeGender(input: seq<byte>): Parsed<Gender> {
    if |input| == 0 || input[0] > 2 then Malformed
    else Parsed(if input[0] == 0 then Male else if input[0] == 1 then Female else Other, input[1..])
  }

  function EncodeBool(b: bool): seq<byte> {
    [if b then 1 else 0]
  }

  function DecodeBool(input: seq<byte>): Parsed<bool> {
    if |input| == 0 || input[0] > 1 then Malformed else Parsed(input[0] == 1, input[1..])
  }

  function DecodeAccount(input: seq<byte>): Parsed<AccountId> {
    if |input| < 32 then Malformed else Parsed(input[..32], input[32..])
  }

  // Records and calls

  function EncodeNames(name: Bytes, surname: Bytes): seq<byte>
  {
    EncodeBytes(name) + EncodeBytes(surname)
  }

  function DecodeNames(nameBound: u32, surnameBound: u32, input: seq<byte>): (r: Parsed<(Bytes, Bytes)>)
    ensures r.Parsed? ==> |r.value.0| <= nameBound && |r.value.1| <= surnameBound
  {
    var (name, r0) :- DecodeBytes(nameBound, input);
    var (surname, r1) :- DecodeBytes(surnameBound, r0);
    Parsed((name, surname), r1)
  }

  function EncodeAgeGender(age: u32, gender: Gender): seq<byte> {
    EncodeU32(age) + EncodeGender(gender)
  }

  function DecodeAgeGender(input: seq<byte>): Parsed<(u32, Gender)> {
    var (age, r0) :- DecodeU32(input);
    var (gender, r1) :- DecodeGender(r0);
    Parsed((age, gender), r1)
  }

  /** The four fields that a call supplies for a student. */
  datatype Profile = Profile(name: Bytes, surname: Bytes, age: u32, gender: Gender)

  function EncodeProfile(p: Profile): seq<byte>
  {
    EncodeNames(p.name, p.surname) + EncodeAgeGender(p.age, p.gender)
  }

  function DecodeProfile(nameBound: u32, surnameBound: u32, input: seq<byte>): (r: Parsed<Profile>)
    ensures r.Parsed? ==> |r.value.name| <= nameBound && |r.value.surname| <= surnameBound
  {
    var (names, r0) :- DecodeNames(nameBound, surnameBound, input);
    var (ageGender, r1) :- DecodeAgeGender(r0);
    Parsed(Profile(names.0, names.1, ageGender.0, ageGender.1), r1)
  }

  function EncodeStudent(s: Student): seq<byte>
  {
    EncodeProfile(Profile(s.name, s.surname, s.age, s.gender)) + EncodeBool(s.hasGraduated)
  }

  function DecodeStudent(cfg: Config, input: seq<byte>): (r: Parsed<Student>)
    ensures r.Parsed? ==> r.value.Fits(cfg)
  {
    var (p, r0) :- DecodeProfile(cfg.maxNameLen, cfg.maxSurnameLen, input);
    var (hasGraduated, r1) :- DecodeBool(r0);
    Parsed(Student(p.name, p.surname, p.age, p.gender, hasGraduated), r1)
  }

  function EncodeUpdate(id: u32, p: Profile): seq<byte>
  {
    EncodeU32(id) + EncodeProfile(p)
  }

  function EncodeReceive(student: Student, newOwner: AccountId): seq<byte>
  {
    EncodeStudent(student) + newOwner
  }

  function EncodeCall(call: Call): seq<byte>
  {
    match call
    case CreateStudent(name, surname, age, gender) => [0] + EncodeProfile(Profile(name, surname, age, gender))
    case GraduateStudent(id) => [1] + EncodeU32(id)
    case DeleteStudent(id) => [2] + EncodeU32(id)
    case UpdateStudent(id, name, surname, age, gender) =>
      [4] + EncodeUpdate(id, Profile(name, surname, age, gender))
    case ReceiveStudent(student, newOwner) => [5] + EncodeReceive(student, newOwner)
    case DeleteAnyStudent(id) => [6] + EncodeU32(id)
  }

  function DecodeCreate(input: seq<byte>): (r: Parsed<Call>)
    ensures r.Parsed? ==> r.value.CreateStudent?
  {
    var (p, r0) :- DecodeProfile(U32_MAX, U32_MAX, input);
    Parsed(CreateStudent(p.name, p.surname, p.age, p.gender), r0)
  }

  function DecodeUpdate(input: seq<byte>): (r: Parsed<Call>)
    ensures r.Parsed? ==> r.value.UpdateStudent?
  {
    var (id, r0) :- DecodeU32(input);
    var (p, r1) :- DecodeProfile(U32_MAX, U32_MAX, r0);
    Parsed(UpdateStudent(id, p.name, p.surname, p.age, p.gender), r1)
  }

  function DecodeReceive(cfg: Config, input: seq<byte>): (r: Parsed<Call>)
    ensures r.Parsed? ==> r.value.ReceiveStudent? && r.value.WellTyped(cfg)
  {
    var (student, r0) :- DecodeStudent(cfg, input);
    var (newOwner, r1) :- DecodeAccount(r0);
    Parsed(ReceiveStudent(student, newOwner), r1)
  }

  function DecodeCall(cfg: Config, input: seq<byte>): (r: Parsed<Call>)
    ensures r.Parsed? ==> r.value.WellTyped(cfg)
  {
    if |input| == 0 then Malformed
    else
      var args := input[1..];
      match input[0]
      case 0 => DecodeCreate(args)
      case 1 =>
        var (id, r0) :- DecodeU32(args);
        Parsed(GraduateStudent(id), r0)
      case 2 =>
        var (id, r0) :- DecodeU32(args);
        Parsed(DeleteStudent(id), r0)
      case 4 => DecodeUpdate(args)
      case 5 => DecodeReceive(cfg, args)
      case 6 =>
        var (id, r0) :- DecodeU32(args);
        Parsed(DeleteAnyStudent(id), r0)
      case _ => Malformed
  }

  function EncodeRuntimeCall(call: Call): seq<byte>
  {
    [TEMPLATE_PALLET_INDEX] + EncodeCall(call)
  }

  /** The payload of a call to another pallet is not looked at. */
  function DecodeRuntimeCall(cfg: Config, input: seq<byte>): Parsed<RuntimeCall> {
    if |input| == 0 then Malformed
    else if input[0] != TEMPLATE_PALLET_INDEX then Parsed(OtherPallet(input[0]), input[1..])
    else
      var (call, rest) :- DecodeCall(cfg, input[1..]);
      Parsed(TemplatePallet(call), rest)
  }

  // Laws of concatenation, stated apart so that the proofs below stay equational

  lemma Assoc(a: seq<byte>, b: seq<byte>, c: seq<byte>)
    ensures (a + b) + c == a + (b + c)
  {}

  lemma Untag(tag: byte, a: seq<byte>, rest: seq<byte>)
    ensures ([tag] + a + rest)[0] == tag && ([tag] + a + rest)[1..] == a + rest
  {}

  lemma Retag(input: seq<byte>, a: seq<byte>, rest: seq<byte>)
    requires input != [] && input[1..] == a + rest
    ensures input == [input[0]] + a + rest
  {}

  // Round trips of the parts: decoding what was encoded, and encoding what was decoded

  lemma U32RoundTrip(x: u32, rest: seq<byte>)
    ensures DecodeU32(EncodeU32(x) + rest) == Parsed(x, rest)
  {
    assert (EncodeU32(x) + rest)[4..] == rest;
  }

  lemma LowDigit(b: int, high: int)
    requires 0 <= b < 256
    ensures (b + 256 * high) % 256 == b && (b + 256 * high) / 256 == high
  {}

  lemma U32Exact(input: seq<byte>)
    requires DecodeU32(input).Parsed?
    ensures input == EncodeU32(DecodeU32(input).value) + DecodeU32(input).rest
  {
    LowDigit(input[0], LittleEndian(input[1], input[2], input[3], 0));
    LowDigit(input[1], LittleEndian(input[2], input[3], 0, 0));
    LowDigit(input[2], input[3]);
    assert EncodeU32(DecodeU32(input).value) == input[..4];
  }

  lemma CompactRoundTrip(n: u32, rest: seq<byte>)
    ensures DecodeCompact(EncodeCompact(n) + rest) == Parsed(n, rest)
  {
    if n < 0x40 {
      assert ([4 * n] + rest)[1..] == rest;
    } else if n < 0x4000 {
      CompactRoundTripTwo(n, rest);
    } else if n < 0x4000_0000 {
      CompactRoundTripFour(n, rest);
    } else {
      assert ([3] + EncodeU32(n) + rest)[1..] == EncodeU32(n) + rest;
      U32RoundTrip(n, rest);
    }
  }

  lemma CompactRoundTripTwo(n: u32, rest: seq<byte>)
    requires 0x40 <= n < 0x4000
    ensures DecodeCompact(EncodeCompact(n) + rest) == Parsed(n, rest)
  {
    var x := 4 * n + 1;
    assert x % 256 % 4 == 1;
    assert x % 256 + 256 * (x / 256) == x && x / 4 == n;
    assert ([x % 256, x / 256] + rest)[2..] == rest;
  }

  lemma CompactRoundTripFour(n: u32, rest: seq<byte>)
    requires 0x4000 <= n < 0x4000_0000
    ensures DecodeCompact(EncodeCompact(n) + rest) == Parsed(n, rest)
  {
    U32RoundTrip(4 * n + 2, rest);
    assert (4 * n + 2) % 256 % 4 == 2;
  }

  lemma CompactExact(input: seq<byte>)
    requires DecodeCompact(input).Parsed?
    ensures input == EncodeCompact(DecodeCompact(input).value) + DecodeCompact(input).rest
  {
    var mode := input[0] % 4;
    if mode == 0 {
    } else if mode == 1 {
      CompactExactTwo(input);
    } else if mode == 2 {
      CompactExactFour(input);
    } else {
      U32Exact(input[1..]);
      assert input == [3] + input[1..];
    }
  }

  lemma CompactExactTwo(input: seq<byte>)
    requires DecodeCompact(input).Parsed? && input[0] % 4 == 1
    ensures input == EncodeCompact(DecodeCompact(input).value) + DecodeCompact(input).rest
  {
    var x := LittleEndian(input[0], input[1], 0, 0);
    assert x % 4 == 1 && x % 256 == input[0] && x / 256 == input[1];
    assert input == [x % 256, x / 256] + input[2..];
  }

  lemma CompactExactFour(input: seq<byte>)
    requires DecodeCompact(input).Parsed? && input[0] % 4 == 2
    ensures input == EncodeCompact(DecodeCompact(input).value) + DecodeCompact(input).rest
  {
    U32Exact(input);
    var x := DecodeU32(input).value;
    assert x % 4 == 2;
  }

  lemma BytesRoundTrip(bound: u32, v: Bytes, rest: seq<byte>)
    requires |v| <= bound
    ensures DecodeBytes(bound, EncodeBytes(v) + rest) == Parsed(v, rest)
  {
    Assoc(EncodeCompact(|v|), v, rest);
    CompactRoundTrip(|v|, v + rest);
  }

  lemma BytesExact(bound: u32, input: seq<byte>)
    requires DecodeBytes(bound, input).Parsed?
    ensures input == EncodeBytes(DecodeBytes(bound, input).value) + DecodeBytes(bound, input).rest
  {
    CompactExact(input);
  }

  lemma NamesRoundTrip(nameBound: u32, surnameBound: u32, name: Bytes, surname: Bytes, rest: seq<byte>)
    requires |name| <= nameBound && |surname| <= surnameBound
    ensures DecodeNames(nameBound, surnameBound, EncodeNames(name, surname) + rest) == Parsed((name, surname), rest)
  {
    var tail := EncodeBytes(surname) + rest;
    Assoc(EncodeBytes(name), EncodeBytes(surname), rest);
    BytesRoundTrip(nameBound, name, tail);
    BytesRoundTrip(surnameBound, surname, rest);
  }

  lemma NamesExact(nameBound: u32, surnameBound: u32, input: seq<byte>)
    requires DecodeNames(nameBound, surnameBound, input).Parsed?
    ensures var p := DecodeNames(nameBound, surnameBound, input);
            input == EncodeNames(p.value.0, p.value.1) + p.rest
  {
    var p := DecodeBytes(nameBound, input);
    BytesExact(nameBound, input);
    BytesExact(surnameBound, p.rest);
    var q := DecodeBytes(surnameBound, p.rest);
    Assoc(EncodeBytes(p.value), EncodeBytes(q.value), q.rest);
  }

  lemma AgeGenderRoundTrip(age: u32, gender: Gender, rest: seq<byte>)
    ensures DecodeAgeGender(EncodeAgeGender(age, gender) + rest) == Parsed((age, gender), rest)
  {
    var tail := EncodeGender(gender) + rest;
    Assoc(EncodeU32(age), EncodeGender(gender), rest);
    U32RoundTrip(age, tail);
    assert tail[1..] == rest;
  }

  lemma AgeGenderExact(input: seq<byte>)
    requires DecodeAgeGender(input).Parsed?
    ensures var p := DecodeAgeGender(input);
            input == EncodeAgeGender(p.value.0, p.value.1) + p.rest
  {
    U32Exact(input);
    var tail := DecodeU32(input).rest;
    assert tail == EncodeGender(DecodeGender(tail).value) + DecodeGender(tail).rest;
  }

  lemma ProfileRoundTrip(nameBound: u32, surnameBound: u32, p: Profile, rest: seq<byte>)
    requires |p.name| <= nameBound && |p.surname| <= surnameBound
    ensures DecodeProfile(nameBound, surnameBound, EncodeProfile(p) + rest) == Parsed(p, rest)
  {
    var tail := EncodeAgeGender(p.age, p.gender) + rest;
    Assoc(EncodeNames(p.name, p.surname), EncodeAgeGender(p.age, p.gender), rest);
    NamesRoundTrip(nameBound, surnameBound, p.name, p.surname, tail);
    AgeGenderRoundTrip(p.age, p.gender, rest);
  }

  lemma ProfileExact(nameBound: u32, surnameBound: u32, input: seq<byte>)
    requires DecodeProfile(nameBound, surnameBound, input).Parsed?
    ensures var p := DecodeProfile(nameBound, surnameBound, input);
            input == EncodeProfile(p.value) + p.rest
  {
    NamesExact(nameBound, surnameBound, input);
    var p := DecodeNames(nameBound, surnameBound, input);
    AgeGenderExact(p.rest);
    var q := DecodeAgeGender(p.rest);
    Assoc(EncodeNames(p.value.0, p.value.1), EncodeAgeGender(q.value.0, q.value.1), q.rest);
  }

  lemma BoolExact(input: seq<byte>)
    requires DecodeBool(input).Parsed?
    ensures input == EncodeBool(DecodeBool(input).value) + DecodeBool(input).rest
  {}

  lemma AccountRoundTrip(a: AccountId, rest: seq<byte>)
    ensures DecodeAccount(a + rest) == Parsed(a, rest)
  {}

  lemma StudentRoundTrip(cfg: Config, s: Student, rest: seq<byte>)
    requires s.Fits(cfg)
    ensures DecodeStudent(cfg, EncodeStudent(s) + rest) == Parsed(s, rest)
  {
    var p := Profile(s.name, s.surname, s.age, s.gender);
    var tail := EncodeBool(s.hasGraduated) + rest;
    Assoc(EncodeProfile(p), EncodeBool(s.hasGraduated), rest);
    ProfileRoundTrip(cfg.maxNameLen, cfg.maxSurnameLen, p, tail);
    assert tail[1..] == rest;
  }

  lemma StudentExact(cfg: Config, input: seq<byte>)
    requires DecodeStudent(cfg, input).Parsed?
    ensures input == EncodeStudent(DecodeStudent(cfg, input).value) + DecodeStudent(cfg, input).rest
  {
    ProfileExact(cfg.maxNameLen, cfg.maxSurnameLen, input);
    var p := DecodeProfile(cfg.maxNameLen, cfg.maxSurnameLen, input);
    BoolExact(p.rest);
    var q := DecodeBool(p.rest);
    Assoc(EncodeProfile(p.value), EncodeBool(q.value), q.rest);
  }

  // The codec of calls

  lemma CreateRoundTrip(p: Profile, rest: seq<byte>)
    ensures DecodeCreate(EncodeProfile(p) + rest) == Parsed(CreateStudent(p.name, p.surname, p.age, p.gender), rest)
  {
    ProfileRoundTrip(U32_MAX, U32_MAX, p, rest);
  }

  lemma UpdateRoundTrip(id: u32, p: Profile, rest: seq<byte>)
    ensures DecodeUpdate(EncodeUpdate(id, p) + rest) ==
              Parsed(UpdateStudent(id, p.name, p.surname, p.age, p.gender), rest)
  {
    Assoc(EncodeU32(id), EncodeProfile(p), rest);
    U32RoundTrip(id, EncodeProfile(p) + rest);
    ProfileRoundTrip(U32_MAX, U32_MAX, p, rest);
  }

  lemma UpdateExact(input: seq<byte>)
    requires DecodeUpdate(input).Parsed?
    ensures var c := DecodeUpdate(input).value;
            input == EncodeUpdate(c.id, Profile(c.name, c.surname, c.age, c.gender)) + DecodeUpdate(input).rest
  {
    U32Exact(input);
    var p := DecodeU32(input);
    ProfileExact(U32_MAX, U32_MAX, p.rest);
    var q := DecodeProfile(U32_MAX, U32_MAX, p.rest);
    Assoc(EncodeU32(p.value), EncodeProfile(q.value), q.rest);
  }

  lemma ReceiveRoundTrip(cfg: Config, student: Student, newOwner: AccountId, rest: seq<byte>)
    requires student.Fits(cfg)
    ensures DecodeReceive(cfg, EncodeReceive(student, newOwner) + rest) ==
              Parsed(ReceiveStudent(student, newOwner), rest)
  {
    Assoc(EncodeStudent(student), newOwner, rest);
    StudentRoundTrip(cfg, student, newOwner + rest);
    AccountRoundTrip(newOwner, rest);
  }

  lemma ReceiveExact(cfg: Config, input: seq<byte>)
    requires DecodeReceive(cfg, input).Parsed?
    ensures var c := DecodeReceive(cfg, input).value;
            input == EncodeReceive(c.student, c.newOwner) + DecodeReceive(cfg, input).rest
  {
    StudentExact(cfg, input);
    var p := DecodeStudent(cfg, input);
    var q := DecodeAccount(p.rest);
    assert p.rest == q.value + q.rest;
    Assoc(EncodeStudent(p.value), q.value, q.rest);
  }

  /** Decoding an encoded call, whatever follows it, gives the call and exactly what followed. */
  lemma CallRoundTrip(cfg: Config, call: Call, rest: seq<byte>)
    requires call.WellTyped(cfg)
    ensures DecodeCall(cfg, EncodeCall(call) + rest) == Parsed(call, rest)
  {
    match call
    case CreateStudent(_, _, _, _) => TaggedCreateRoundTrip(cfg, call, rest);
    case UpdateStudent(_, _, _, _, _) => TaggedUpdateRoundTrip(cfg, call, rest);
    case ReceiveStudent(_, _) => TaggedReceiveRoundTrip(cfg, call, rest);
    case _ => TaggedIdRoundTrip(cfg, call, rest);
  }

  lemma TaggedCreateRoundTrip(cfg: Config, call: Call, rest: seq<byte>)
    requires call.CreateStudent?
    ensures DecodeCall(cfg, EncodeCall(call) + rest) == Parsed(call, rest)
  {
    var p := Profile(call.name, call.surname, call.age, call.gender);
    Untag(0, EncodeProfile(p), rest);
    CreateRoundTrip(p, rest);
  }

  lemma TaggedUpdateRoundTrip(cfg: Config, call: Call, rest: seq<byte>)
    requires call.UpdateStudent?
    ensures DecodeCall(cfg, EncodeCall(call) + rest) == Parsed(call, rest)
  {
    var p := Profile(call.name, call.surname, call.age, call.gender);
    Untag(4, EncodeUpdate(call.id, p), rest);
    UpdateRoundTrip(call.id, p, rest);
  }

  lemma DecodeCallReceive(cfg: Config, input: seq<byte>)
    requires input != [] && input[0] == 5
    ensures DecodeCall(cfg, input) == DecodeReceive(cfg, input[1..])
  {}

  lemma TaggedReceiveRoundTrip(cfg: Config, call: Call, rest: seq<byte>)
    requires call.ReceiveStudent? && call.WellTyped(cfg)
    ensures DecodeCall(cfg, EncodeCall(call) + rest) == Parsed(call, rest)
  {
    var args := EncodeReceive(call.student, call.newOwner);
    Untag(5, args, rest);
    DecodeCallReceive(cfg, [5] + args + rest);
    ReceiveRoundTrip(cfg, call.student, call.newOwner, rest);
  }

  lemma TaggedIdRoundTrip(cfg: Config, call: Call, rest: seq<byte>)
    requires call.GraduateStudent? || call.DeleteStudent? || call.DeleteAnyStudent?
    ensures DecodeCall(cfg, EncodeCall(call) + rest) == Parsed(call, rest)
  {
    Untag(EncodeCall(call)[0], EncodeU32(call.id), rest);
    U32RoundTrip(call.id, rest);
  }

  /** Every accepted input is the encoding of the decoded call followed by the unused bytes. */
  lemma CallExact(cfg: Config, input: seq<byte>)
    requires DecodeCall(cfg, input).Parsed?
    ensures input == EncodeCall(DecodeCall(cfg, input).value) + DecodeCall(cfg, input).rest
  {
    var args := input[1..];
    if input[0] == 0 {
      var p := DecodeProfile(U32_MAX, U32_MAX, args);
      ProfileExact(U32_MAX, U32_MAX, args);
      Retag(input, EncodeProfile(p.value), p.rest);
    } else if input[0] == 4 {
      UpdateExact(args);
      var c := DecodeUpdate(args).value;
      Retag(input, EncodeUpdate(c.id, Profile(c.name, c.surname, c.age, c.gender)), DecodeUpdate(args).rest);
    } else if input[0] == 5 {
      ReceiveExact(cfg, args);
      var c := DecodeReceive(cfg, args).value;
      Retag(input, EncodeReceive(c.student, c.newOwner), DecodeReceive(cfg, args).rest);
    } else {
      U32Exact(args);
      Retag(input, EncodeU32(DecodeU32(args).value), DecodeU32(args).rest);
    }
  }

  lemma RuntimeCallRoundTrip(cfg: Config, call: Call, rest: seq<byte>)
    requires call.WellTyped(cfg)
    ensures DecodeRuntimeCall(cfg, EncodeRuntimeCall(call) + rest) == Parsed(TemplatePallet(call), rest)
  {
    Untag(TEMPLATE_PALLET_INDEX, EncodeCall(call), rest);
    CallRoundTrip(cfg, call, rest);
  }

  lemma RuntimeCallExact(cfg: Config, input: seq<byte>)
    requires DecodeRuntimeCall(cfg, input).Parsed?
    requires DecodeRuntimeCall(cfg, input).value.TemplatePallet?
    ensures var p := DecodeRuntimeCall(cfg, input);
            input == EncodeRuntimeCall(p.value.call) + p.rest
  {
    CallExact(cfg, input[1..]);
    var p := DecodeCall(cfg, input[1..]);
    Retag(input, EncodeCall(p.value), p.rest);
  }

  /** No encoded call is a prefix of another, and no two calls share their bytes. */
  lemma EncodingIsPrefixFree(c1: Call, rest1: seq<byte>, c2: Call, rest2: seq<byte>)
    requires EncodeRuntimeCall(c1) + rest1 == EncodeRuntimeCall(c2) + rest2
    ensures c1 == c2 && rest1 == rest2
  {
    var widest := Config(U32_MAX, U32_MAX, 0);
    RuntimeCallRoundTrip(widest, c1, rest1);
    RuntimeCallRoundTrip(widest, c2, rest2);
  }

  /** The shortest of the four forms that can hold the value is the one used. */
  lemma CompactIsShortest(input: seq<byte>, n: u32)
    requires DecodeCompact(input) == Parsed(n, [])
    ensures |input| == if n < 0x40 then 1 else if n < 0x4000 then 2 else if n < 0x4000_0000 then 4 else 5
  {
    CompactExact(input);
  }

  /** With the bounds of the shipped runtime a graduation's call has 42 bytes besides the two names. */
  lemma GraduationCallSize(student: Student, owner: AccountId)
    requires student.Fits(RUNTIME_CONFIG)
    ensures |EncodeRuntimeCall(ReceiveStudent(student, owner))| == 42 + |student.name| + |student.surname| <= 72
  {
    var p := Profile(student.name, student.surname, student.age, student.gender);
    assert |EncodeBytes(student.name)| == 1 + |student.name| && |EncodeBytes(student.surname)| == 1 + |student.surname|;
    assert |EncodeProfile(p)| == 7 + |student.name| + |student.surname|;
    assert |EncodeReceive(student, owner)| == 40 + |student.name| + |student.surname|;
  }
}
