/** Result types shared by the modules of this project. */
module Common {

  /** A value that may be missing: Go's nil pointer or the comma-ok form. */
  datatype Option<+T> = None | Some(value: T)

  /** How one durable step of a command ended. A command may stop after a step
      whose effect is already durable, because the process died there or because
      the reply was lost. */
  datatype StepResult = Succeeded | FailedBefore | FailedAfter {
    /** The effect of the step reached durable storage. */
    predicate Durable() { Succeeded? || FailedAfter? }
  }

  /** Simple case folding, as far as an ASCII word can meet it. */
  function Fold(c: char): char {
    if 'A' <= c <= 'Z' then c - 'A' + 'a'
    else if c == '\U{017F}' then 's'
    else if c == '\U{212A}' then 'k'
    else c
  }

  /** Equal but for case: the two forms of a letter, and the long s and the kelvin sign
      with their letters. */
  lemma FoldExactly(c: char, d: char)
    ensures Fold(c) == Fold(d) <==>
      || c == d
      || ('A' <= c <= 'Z' && d == c - 'A' + 'a') || ('A' <= d <= 'Z' && c == d - 'A' + 'a')
      || {c, d} <= {'S', 's', '\U{017F}'} || {c, d} <= {'K', 'k', '\U{212A}'}
  {
    assert {c, d} <= {'S', 's', '\U{017F}'} <==> c in {'S', 's', '\U{017F}'} && d in {'S', 's', '\U{017F}'};
    assert {c, d} <= {'K', 'k', '\U{212A}'} <==> c in {'K', 'k', '\U{212A}'} && d in {'K', 'k', '\U{212A}'};
  }

  /** strings.EqualFold against an ASCII word. */
  predicate EqualFold(s: string, t: string) {
    |s| == |t| && forall i | 0 <= i < |s| :: Fold(s[i]) == Fold(t[i])
  }
}
