/** OCaml immutable lists as the C stubs walk them: the immediate `[]`, or a
    block whose field 0 is the head and field 1 the tail (`Is_block`,
    `Field(l, 0)`, `Field(l, 1)`). */
module OCamlList {

  datatype List<T> = Nil | Cons(head: T, tail: List<T>)

  /** Number of cons blocks, i.e. OCaml's `List.length`. */
  function Length<T>(l: List<T>): nat
  {
    match l
    case Nil => 0
    case Cons(_, t) => 1 + Length(t)
  }

  /** The elements of the list, head first. */
  function ToSeq<T>(l: List<T>): (s: seq<T>)
    ensures |s| == Length(l)
  {
    match l
    case Nil => []
    case Cons(h, t) => [h] + ToSeq(t)
  }

  /** Two lists with the same elements in the same order are the same list. */
  lemma {:induction false} ToSeqInjective<T>(a: List<T>, b: List<T>)
    requires ToSeq(a) == ToSeq(b)
    ensures a == b
  {
    match a
    case Nil =>
    case Cons(h, t) =>
      assert ToSeq(b)[0] == h;
      assert ToSeq(t) == ToSeq(a)[1..] == ToSeq(b)[1..] == ToSeq(b.tail);
      ToSeqInjective(t, b.tail);
  }
}
