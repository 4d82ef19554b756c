/** The tagged value of memory/manager.h: a type code and either a plain value or the offset
    of a cell in the reference pool. */
module MemRefs {

  const NULL_TYPE := 0
  const INT32 := 1
  const HASH := 32
  const STRING := 33
  const LIST := 34
  const FUNCTION := 35
  const ARRAY := 36
  const KVP := 37
  const SCOPE := 38
  const STACK := 39
  const GAME_OBJECT := 40
  const LOCATION := 41
  const LOCATION_REFERENCE := 42

  datatype MemRef = MemRef(typ: int, data: int)

  const NULL_REF := MemRef(NULL_TYPE, 0)

  /** memory/manager.c, is_value. */
  predicate IsValue(x: MemRef) {
    x.typ < HASH
  }
}
