/**
 * Python's built-in `<` on the values that appear in the sort keys of the
 * application: strings (code-point lexicographic order), floats (exact reals
 * here), the `float('inf')` sentinel, and tuples of these (lexicographic on
 * the first position where the two tuples differ).
 *
 * A scalar sort key `k` is represented by the one-element tuple `[k]`, which
 * Python orders exactly as it orders the scalars themselves.
 */
module PyOrder {

  /** `a < b` on Python `str`: compare the first differing code point; a proper prefix comes first. */
  predicate StrLess(a: string, b: string)
  {
    if a == [] then b != []
    else if b == [] then false
    else if a[0] != b[0] then a[0] < b[0]
    else StrLess(a[1..], b[1..])
  }

  lemma {:induction false} StrLessIrreflexive(a: string)
    ensures !StrLess(a, a)
  {
    if a != [] {
      StrLessIrreflexive(a[1..]);
    }
  }

  lemma {:induction false} StrLessTransitive(a: string, b: string, c: string)
    requires StrLess(a, b) && StrLess(b, c)
    ensures StrLess(a, c)
  {
    if a != [] && a[0] == b[0] && b[0] == c[0] {
      StrLessTransitive(a[1..], b[1..], c[1..]);
    }
  }

  lemma {:induction false} StrLessTotal(a: string, b: string)
    ensures a == b || StrLess(a, b) || StrLess(b, a)
  {
    if a != [] && b != [] && a[0] == b[0] {
      StrLessTotal(a[1..], b[1..]);
      if a[1..] == b[1..] {
        assert a == [a[0]] + a[1..] && b == [b[0]] + b[1..];
      }
    }
  }

  lemma StrLessAsymmetric(a: string, b: string)
    requires StrLess(a, b)
    ensures !StrLess(b, a)
  {
    if StrLess(b, a) {
      StrLessTransitive(a, b, a);
      StrLessIrreflexive(a);
    }
  }

  /** One position of a sort key. */
  datatype Atom =
    | Num(x: real)   // a Python int or float, compared exactly
    | Inf            // the float('inf') sentinel: above every number
    | Str(s: string)

  /** Order between kinds. Python compares numbers with inf, and refuses to
      compare str with a number; no key here ever does the latter, so that
      case is given an arbitrary but fixed order. */
  function Kind(a: Atom): nat
  {
    match a
    case Num(_) => 0
    case Inf => 1
    case Str(_) => 2
  }

  predicate AtomLess(a: Atom, b: Atom)
  {
    match (a, b)
    case (Num(x), Num(y)) => x < y
    case (Str(s), Str(t)) => StrLess(s, t)
    case _ => Kind(a) < Kind(b)
  }

  lemma AtomLessIrreflexive(a: Atom)
    ensures !AtomLess(a, a)
  {
    if a.Str? {
      StrLessIrreflexive(a.s);
    }
  }

  lemma AtomLessTransitive(a: Atom, b: Atom, c: Atom)
    requires AtomLess(a, b) && AtomLess(b, c)
    ensures AtomLess(a, c)
  {
    if a.Str? && b.Str? && c.Str? {
      StrLessTransitive(a.s, b.s, c.s);
    }
  }

  lemma AtomLessTotal(a: Atom, b: Atom)
    ensures a == b || AtomLess(a, b) || AtomLess(b, a)
  {
    if a.Str? && b.Str? {
      StrLessTotal(a.s, b.s);
    }
  }

  /** A sort key: a Python tuple. */
  type Key = seq<Atom>

  /** `a < b` on Python tuples: the first position where they differ decides; a proper prefix comes first. */
  predicate KeyLess(a: Key, b: Key)
  {
    if a == [] then b != []
    else if b == [] then false
    else if a[0] != b[0] then AtomLess(a[0], b[0])
    else KeyLess(a[1..], b[1..])
  }

  lemma {:induction false} KeyLessIrreflexive(a: Key)
    ensures !KeyLess(a, a)
  {
    if a != [] {
      KeyLessIrreflexive(a[1..]);
    }
  }

  lemma {:induction false} KeyLessTransitive(a: Key, b: Key, c: Key)
    requires KeyLess(a, b) && KeyLess(b, c)
    ensures KeyLess(a, c)
  {
    if a != [] && b != [] && c != [] {
      if a[0] == b[0] && b[0] == c[0] {
        KeyLessTransitive(a[1..], b[1..], c[1..]);
      } else if a[0] != b[0] && b[0] != c[0] {
        AtomLessTransitive(a[0], b[0], c[0]);
        if a[0] == c[0] {
          AtomLessIrreflexive(a[0]);
        }
      }
    }
  }

  lemma {:induction false} KeyLessTotal(a: Key, b: Key)
    ensures a == b || KeyLess(a, b) || KeyLess(b, a)
  {
    if a != [] && b != [] {
      if a[0] == b[0] {
        KeyLessTotal(a[1..], b[1..]);
        if a[1..] == b[1..] {
          assert a == [a[0]] + a[1..] && b == [b[0]] + b[1..];
        }
      } else {
        AtomLessTotal(a[0], b[0]);
      }
    }
  }

  /** `!(b < a)`: what a stable sort needs to keep `a` ahead of `b`. */
  lemma KeyLessAsymmetric(a: Key, b: Key)
    requires KeyLess(a, b)
    ensures !KeyLess(b, a)
  {
    if KeyLess(b, a) {
      KeyLessTransitive(a, b, a);
      KeyLessIrreflexive(a);
    }
  }
}
