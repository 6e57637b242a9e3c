/** Wrapper datatypes and sequence facts shared by the other modules. */
module Prelude {

  datatype Option<+T> = None | Some(value: T)

  datatype Result<+T, +E> = Ok(value: T) | Err(error: E)

  /** The space characters of the C locale. */
  predicate IsSpace(c: char) {
    c == ' ' || '\t' <= c <= '\r'
  }

  /** Two texts disagree at a position they both have, so neither extends the other. */
  ghost predicate Diverge(a: string, b: string) {
    exists i :: 0 <= i < |a| && i < |b| && a[i] != b[i]
  }

  lemma DivergeIsFinal(a: string, b: string, u: string, v: string)
    requires Diverge(a, b)
    ensures !(a <= b) && !(b <= a)
    ensures Diverge(a + u, b + v)
    ensures Diverge(u + a, u + b)
  {
    var i :| 0 <= i < |a| && i < |b| && a[i] != b[i];
    assert (a + u)[i] != (b + v)[i];
    assert (u + a)[|u| + i] != (u + b)[|u| + i];
  }

  lemma PrefixAfterCommon(p: string, a: string, b: string)
    ensures p + a <= p + b <==> a <= b
  {
    if a <= b {
      assert p + b == (p + a) + b[|a|..];
    }
    if p + a <= p + b {
      assert forall i :: 0 <= i < |a| ==> a[i] == (p + a)[|p| + i] == (p + b)[|p| + i] == b[i];
    }
  }
}
