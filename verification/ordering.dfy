/** Python's built-in `<` on the values the label store compares: strings
    (lexicographic on code points, a proper prefix sorting first) and tuples
    of string/integer fields (lexicographic, a shorter prefix sorting first). */
module Ordering {

  /** Python's `a < b` on strings. */
  predicate StrLt(a: string, b: string)
  {
    if |a| == 0 then |b| > 0
    else if |b| == 0 then false
    else if a[0] == b[0] then StrLt(a[1..], b[1..])
    else a[0] < b[0]
  }

  predicate StrLe(a: string, b: string)
  {
    StrLt(a, b) || a == b
  }

  lemma {:induction false} StrLtIrreflexive(a: string)
    ensures !StrLt(a, a)
  {
    if |a| > 0 {
      StrLtIrreflexive(a[1..]);
    }
  }

  lemma {:induction false} StrLtTransitive(a: string, b: string, c: string)
    requires StrLt(a, b) && StrLt(b, c)
    ensures StrLt(a, c)
  {
    if |a| > 0 && |b| > 0 && |c| > 0 && a[0] == b[0] && b[0] == c[0] {
      StrLtTransitive(a[1..], b[1..], c[1..]);
    }
  }

  lemma {:induction false} StrLtTotal(a: string, b: string)
    ensures StrLt(a, b) || a == b || StrLt(b, a)
  {
    if |a| > 0 && |b| > 0 && a[0] == b[0] {
      StrLtTotal(a[1..], b[1..]);
      if a[1..] == b[1..] {
        assert a == [a[0]] + a[1..] && b == [b[0]] + b[1..];
      }
    }
  }

  lemma StrLtAsymmetric(a: string, b: string)
    requires StrLt(a, b)
    ensures !StrLt(b, a)
  {
    if StrLt(b, a) {
      StrLtTransitive(a, b, a);
      StrLtIrreflexive(a);
    }
  }

  /** A proper prefix sorts strictly first. */
  lemma {:induction false} StrLtPrefix(a: string, tail: string)
    requires |tail| > 0
    ensures StrLt(a, a + tail)
  {
    if |a| > 0 {
      assert (a + tail)[1..] == a[1..] + tail;
      StrLtPrefix(a[1..], tail);
    }
  }

  /** One field of a stored key: Python 2 orders every integer before every string. */
  datatype Field = Str(s: string) | Int(n: int)

  predicate FieldLt(x: Field, y: Field)
  {
    match (x, y)
    case (Str(a), Str(b)) => StrLt(a, b)
    case (Int(m), Int(n)) => m < n
    case (Int(_), Str(_)) => true
    case (Str(_), Int(_)) => false
  }

  lemma FieldLtIrreflexive(x: Field)
    ensures !FieldLt(x, x)
  {
    if x.Str? {
      StrLtIrreflexive(x.s);
    }
  }

  lemma FieldLtTransitive(x: Field, y: Field, z: Field)
    requires FieldLt(x, y) && FieldLt(y, z)
    ensures FieldLt(x, z)
  {
    if x.Str? && y.Str? && z.Str? {
      StrLtTransitive(x.s, y.s, z.s);
    }
  }

  lemma FieldLtTotal(x: Field, y: Field)
    ensures FieldLt(x, y) || x == y || FieldLt(y, x)
  {
    if x.Str? && y.Str? {
      StrLtTotal(x.s, y.s);
    }
  }

  /** Python's `a < b` on tuples of fields. */
  predicate FieldsLt(a: seq<Field>, b: seq<Field>)
  {
    if |a| == 0 then |b| > 0
    else if |b| == 0 then false
    else if a[0] == b[0] then FieldsLt(a[1..], b[1..])
    else FieldLt(a[0], b[0])
  }

  predicate FieldsLe(a: seq<Field>, b: seq<Field>)
  {
    FieldsLt(a, b) || a == b
  }

  lemma {:induction false} FieldsLtIrreflexive(a: seq<Field>)
    ensures !FieldsLt(a, a)
  {
    if |a| > 0 {
      FieldsLtIrreflexive(a[1..]);
    }
  }

  lemma {:induction false} FieldsLtTransitive(a: seq<Field>, b: seq<Field>, c: seq<Field>)
    requires FieldsLt(a, b) && FieldsLt(b, c)
    ensures FieldsLt(a, c)
  {
    if |a| > 0 && |b| > 0 && |c| > 0 {
      if a[0] == b[0] && b[0] == c[0] {
        FieldsLtTransitive(a[1..], b[1..], c[1..]);
      } else if a[0] != b[0] && b[0] != c[0] {
        FieldLtTransitive(a[0], b[0], c[0]);
        if a[0] == c[0] {
          FieldLtIrreflexive(a[0]);
        }
      }
    }
  }

  lemma {:induction false} FieldsLtTotal(a: seq<Field>, b: seq<Field>)
    ensures FieldsLt(a, b) || a == b || FieldsLt(b, a)
  {
    if |a| > 0 && |b| > 0 {
      if a[0] == b[0] {
        FieldsLtTotal(a[1..], b[1..]);
        if a[1..] == b[1..] {
          assert a == [a[0]] + a[1..] && b == [b[0]] + b[1..];
        }
      } else {
        FieldLtTotal(a[0], b[0]);
      }
    }
  }

  lemma FieldsLtAsymmetric(a: seq<Field>, b: seq<Field>)
    requires FieldsLt(a, b)
    ensures !FieldsLt(b, a)
  {
    if FieldsLt(b, a) {
      FieldsLtTransitive(a, b, a);
      FieldsLtIrreflexive(a);
    }
  }

  /** Tuples of equal-length prefixes followed by one last field compare on
      the prefix first and on the last field only when the prefixes agree. */
  lemma {:induction false} FieldsLtSplit(p: seq<Field>, x: Field, q: seq<Field>, y: Field)
    requires |p| == |q|
    ensures FieldsLt(p + [x], q + [y]) <==> FieldsLt(p, q) || (p == q && FieldLt(x, y))
  {
    if |p| == 0 {
      assert p + [x] == [x] && q + [y] == [y];
      assert [x][1..] == [] && [y][1..] == [];
      FieldLtIrreflexive(x);
    } else {
      assert (p + [x])[1..] == p[1..] + [x];
      assert (q + [y])[1..] == q[1..] + [y];
      FieldsLtSplit(p[1..], x, q[1..], y);
      if p[0] == q[0] && p[1..] == q[1..] {
        assert p == [p[0]] + p[1..] && q == [q[0]] + q[1..];
      }
    }
  }

  /** A tuple that is a proper prefix of another sorts strictly first. */
  lemma {:induction false} FieldsLtPrefix(a: seq<Field>, tail: seq<Field>)
    requires |tail| > 0
    ensures FieldsLt(a, a + tail)
  {
    if |a| > 0 {
      assert (a + tail)[1..] == a[1..] + tail;
      FieldsLtPrefix(a[1..], tail);
    }
  }
}
