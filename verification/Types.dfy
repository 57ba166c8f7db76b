/** The values the student pallet stores and passes around. */
module Types {

  const U32_MAX: int := 0xFFFF_FFFF

  /** Capacity of one account's list of student ids. */
  const MAX_OWNED: nat := 100

  type u32 = x: int | 0 <= x <= 0xFFFF_FFFF
  type byte = b: int | 0 <= b < 256
  /** A byte vector; its length fits the 32-bit size type of the runtime. */
  type Bytes = v: seq<byte> | |v| <= 0xFFFF_FFFF

  type AccountId = a: seq<byte> | |a| == 32 witness seq(32, _ => 0)

  datatype Option<+T> = None | Some(value: T)

  datatype Gender = Male | Female | Other

  /** The constants a runtime supplies to the pallet. */
  datatype Config = Config(maxNameLen: u32, maxSurnameLen: u32, destinationPara: u32)

  /** The values of the shipped runtime. */
  const RUNTIME_CONFIG := Config(10, 20, 2000)

  datatype Student = Student(
    name: Bytes,
    surname: Bytes,
    age: u32,
    gender: Gender,
    hasGraduated: bool)
  {
    /** The length bounds that the source keeps in the types of `name` and `surname`. */
    predicate Fits(cfg: Config) {
      |name| <= cfg.maxNameLen && |surname| <= cfg.maxSurnameLen
    }
  }

  /** The six dispatchables with their arguments. */
  datatype Call =
    | CreateStudent(name: Bytes, surname: Bytes, age: u32, gender: Gender)
    | GraduateStudent(id: u32)
    | DeleteStudent(id: u32)
    | ReceiveStudent(student: Student, newOwner: AccountId)
    | UpdateStudent(id: u32, name: Bytes, surname: Bytes, age: u32, gender: Gender)
    | DeleteAnyStudent(id: u32)
  {
    /** Does a successful dispatch of this call hand out a student id? */
    predicate Allocates() {
      CreateStudent? || ReceiveStudent?
    }

    /** What the argument types of the call guarantee: a received student is already bounded. */
    predicate WellTyped(cfg: Config) {
      ReceiveStudent? ==> student.Fits(cfg)
    }
  }
}
