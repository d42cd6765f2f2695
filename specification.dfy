/** Spring Data's `Specification<Book>`, read as the condition a book must
    meet to be selected. */
module Specifications {
  import opened Entities

  type Specification = Book -> bool

  /** `Specification.where(null)`: no condition at all. */
  function Unconstrained(): Specification {
    (b: Book) => true
  }

  /** `spec.and(other)`: both conditions. */
  function And(spec: Specification, other: Specification): Specification {
    (b: Book) => spec(b) && other(b)
  }
}
