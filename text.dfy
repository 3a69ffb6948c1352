/** Occurrence of one string inside another, shared by the rendering and the prompt lemmas. */
module Text {

  /** `part` occurs as a contiguous piece of `whole`. */
  ghost predicate Occurs(part: string, whole: string)
  {
    exists k :: OccursAt(part, whole, k)
  }

  /** `part` occurs in `whole` starting at position `k`. */
  ghost predicate OccursAt(part: string, whole: string, k: int)
  {
    0 <= k <= |whole| - |part| && whole[k..k + |part|] == part
  }

  lemma OccursInLonger(part: string, a: string, b: string)
    requires Occurs(part, a)
    ensures Occurs(part, a + b) && Occurs(part, b + a)
  {
    var k :| OccursAt(part, a, k);
    assert (a + b)[k..k + |part|] == part;
    assert OccursAt(part, a + b, k);
    assert (b + a)[|b| + k..|b| + k + |part|] == part;
    assert OccursAt(part, b + a, |b| + k);
  }

  lemma OccursInPiece(part: string, piece: string, whole: string)
    requires Occurs(part, piece) && Occurs(piece, whole)
    ensures Occurs(part, whole)
  {
    var k :| OccursAt(part, piece, k);
    var m :| OccursAt(piece, whole, m);
    forall t | 0 <= t < |part| ensures whole[m + k + t] == part[t] {
      assert whole[m + k + t] == whole[m..m + |piece|][k + t] == piece[k + t];
      assert piece[k + t] == piece[k..k + |part|][t];
    }
    assert whole[m + k..m + k + |part|] == part;
    assert OccursAt(part, whole, m + k);
  }

  lemma OccursItself(s: string)
    ensures Occurs(s, s)
  {
    assert s[0..|s|] == s;
    assert OccursAt(s, s, 0);
  }

  /**
   * Proof hint, not a property of the model: regroups a concatenation. Called as a
   * lemma so that the regrouped equation enters a proof as one fact, without the
   * sequence-extensionality reasoning an inline `assert` would start there.
   */
  lemma Associative(a: string, b: string, c: string)
    ensures a + b + c == a + (b + c)
  {
  }
}
