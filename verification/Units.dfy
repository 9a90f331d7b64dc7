/** UTF-16 code units, the elements of a Java string, and text at an index. */
module Units {

  type Unit = c: int | 0 <= c < 0x1_0000

  type Text = seq<Unit>

  /** `p` stands in `s` from index `i` on. */
  ghost predicate At(s: Text, i: nat, p: Text) {
    i + |p| <= |s| && s[i..i + |p|] == p
  }

  lemma AtSplit(s: Text, i: nat, p: Text, q: Text)
    requires At(s, i, p + q)
    ensures At(s, i, p) && At(s, i + |p|, q)
  {
    var t := s[i..i + |p + q|];
    assert s[i..i + |p|] == t[..|p|] == p;
    assert s[i + |p|..i + |p| + |q|] == t[|p|..] == q;
  }

  lemma AtFirst(s: Text, i: nat, p: Text)
    requires At(s, i, p) && |p| > 0
    ensures i < |s| && s[i] == p[0]
  {
    assert s[i] == s[i..i + |p|][0];
  }

  lemma AtWhole(p: Text, rest: Text)
    ensures At(p + rest, 0, p)
  {
    assert (p + rest)[0..|p|] == p;
  }
}
