/** Small value types and text predicates shared by the models. */
module Common {
  datatype Option<+T> = None | Some(value: T)

  /** The ASCII characters that count as white space. */
  predicate IsSpace(c: char) {
    c == ' ' || '\t' <= c <= '\r' || '\U{1c}' <= c <= '\U{1f}'
  }

  predicate Blank(text: string) {
    forall i :: 0 <= i < |text| ==> IsSpace(text[i])
  }
}
