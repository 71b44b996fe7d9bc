/** The two sentiment labels shared by both classifiers. */
module Labels {
  const Positive: string := "positive"
  const Negative: string := "negative"

  /** A string is a label when it is one of the two sentiment names. */
  predicate IsLabel(s: string) {
    s == Positive || s == Negative
  }
}
