/** Types and predicates shared by the components. */
module Wrappers {

  datatype Option<+V> = None | Some(value: V)

  ghost predicate NoDuplicates<T>(items: seq<T>) {
    forall i, j | 0 <= i < j < |items| :: items[i] != items[j]
  }

  /** Two different texts with one digest. */
  ghost predicate Collide<T>(hash: string -> T, a: string, b: string) {
    a != b && hash(a) == hash(b)
  }
}
