/** Sequence facts shared by the modules: associativity, prefixes, and the
    concatenation of a sequence of sequences (`Flatten`), which is how the
    markup is built from its lines and the page from its blocks. */
module Seqs {
  lemma AppendAssoc<T>(a: seq<T>, b: seq<T>, c: seq<T>)
    ensures a + b + c == a + (b + c)
  {
  }

  /** Taking one more element appends that element. */
  lemma TakeSnoc<T>(s: seq<T>, i: nat)
    requires i < |s|
    ensures s[..i + 1] == s[..i] + [s[i]]
  {
  }

  /** The sequences of `xs`, one after the other. */
  function Flatten<T>(xs: seq<seq<T>>): seq<T> {
    if xs == [] then [] else Flatten(xs[..|xs| - 1]) + xs[|xs| - 1]
  }

  lemma FlattenSingle<T>(x: seq<T>)
    ensures Flatten([x]) == x
  {
    assert [x][..0] == [];
  }

  lemma FlattenSnoc<T>(xs: seq<seq<T>>, x: seq<T>)
    ensures Flatten(xs + [x]) == Flatten(xs) + x
  {
    assert (xs + [x])[..|xs|] == xs;
  }

  /** Flattening two runs one after the other is flattening each in turn. */
  lemma {:induction false} FlattenAppend<T>(a: seq<seq<T>>, b: seq<seq<T>>)
    ensures Flatten(a + b) == Flatten(a) + Flatten(b)
    decreases |b|
  {
    if b == [] {
      assert a + b == a;
    } else {
      var b', last := b[..|b| - 1], b[|b| - 1];
      assert (a + b)[..|a + b| - 1] == a + b' && (a + b)[|a + b| - 1] == last;
      calc {
        Flatten(a + b);
        Flatten(a + b') + last;
        { FlattenAppend(a, b'); }
        Flatten(a) + Flatten(b') + last;
        { AppendAssoc(Flatten(a), Flatten(b'), last); }
        Flatten(a) + Flatten(b);
      }
    }
  }

  /** Extending a text built as `pre + Flatten(xs)` by one more piece. */
  lemma FlattenExtend<T>(pre: seq<T>, xs: seq<seq<T>>, x: seq<T>)
    ensures pre + Flatten(xs) + x == pre + Flatten(xs + [x])
  {
    FlattenSnoc(xs, x);
    AppendAssoc(pre, Flatten(xs), x);
  }

  /** A prefix of the pieces gives a prefix of the flattened sequence. */
  lemma FlattenMonotone<T>(a: seq<seq<T>>, b: seq<seq<T>>)
    requires a <= b
    ensures Flatten(a) <= Flatten(b)
  {
    assert b == a + b[|a|..];
    FlattenAppend(a, b[|a|..]);
  }

  /** Flattening twice, one more outer piece appends that piece flattened. */
  lemma FlattenTwiceStep<T>(xs: seq<seq<seq<T>>>, i: nat)
    requires i < |xs|
    ensures Flatten(Flatten(xs[..i + 1])) == Flatten(Flatten(xs[..i])) + Flatten(xs[i])
  {
    TakeSnoc(xs, i);
    FlattenSnoc(xs[..i], xs[i]);
    FlattenAppend(Flatten(xs[..i]), xs[i]);
  }
}
