/**
 * The ordering the Java collections of the exchange engine rely on: every
 * entity compares by name through String.compareTo, and the sorted sets
 * (TreeSet) and sorted maps (TreeMap) keep their elements in that order.
 */
module Ordine {

  /** Java's String.compareTo: the difference of the first differing
      characters, or the difference of the lengths when one is a prefix. */
  function Cmp(a: string, b: string): int
  {
    if |a| == 0 || |b| == 0 then |a| - |b|
    else if a[0] != b[0] then a[0] as int - b[0] as int
    else Cmp(a[1..], b[1..])
  }

  /** `a` comes strictly before `b` in the natural order of strings. */
  predicate Precede(a: string, b: string)
  {
    Cmp(a, b) < 0
  }

  lemma {:induction false} CmpAntisimmetrico(a: string, b: string)
    ensures Cmp(a, b) == -Cmp(b, a)
  {
    if |a| == 0 || |b| == 0 {
    } else if a[0] != b[0] {
    } else {
      CmpAntisimmetrico(a[1..], b[1..]);
    }
  }

  lemma {:induction false} CmpZeroSeUguali(a: string, b: string)
    ensures Cmp(a, b) == 0 <==> a == b
  {
    if |a| == 0 || |b| == 0 {
    } else if a[0] != b[0] {
    } else {
      CmpZeroSeUguali(a[1..], b[1..]);
      assert a == [a[0]] + a[1..];
      assert b == [b[0]] + b[1..];
      assert a == b ==> a[1..] == b[1..];
    }
  }

  lemma {:induction false} CmpTransitivo(a: string, b: string, c: string)
    requires Cmp(a, b) < 0 && Cmp(b, c) < 0
    ensures Cmp(a, c) < 0
  {
    if |a| == 0 || |b| == 0 || |c| == 0 {
    } else if a[0] != b[0] || b[0] != c[0] {
    } else {
      CmpTransitivo(a[1..], b[1..], c[1..]);
    }
  }

  /** Precede is a strict total order on strings. */
  lemma PrecedeTotale(a: string, b: string)
    ensures !Precede(a, a)
    ensures a != b ==> Precede(a, b) || Precede(b, a)
    ensures Precede(a, b) ==> !Precede(b, a)
  {
    CmpZeroSeUguali(a, a);
    CmpZeroSeUguali(a, b);
    CmpAntisimmetrico(a, b);
  }

  /** The order of TreeSet<Azione>/TreeMap<Azione, _>: exchange name first,
      then company name (Borsa.Azione.compareTo). */
  predicate PrecedeCoppia(x: (string, string), y: (string, string))
  {
    if x.0 == y.0 then Precede(x.1, y.1) else Precede(x.0, y.0)
  }

  lemma PrecedeCoppiaTotale(x: (string, string), y: (string, string))
    ensures !PrecedeCoppia(x, x)
    ensures x != y ==> PrecedeCoppia(x, y) || PrecedeCoppia(y, x)
    ensures PrecedeCoppia(x, y) ==> !PrecedeCoppia(y, x)
  {
    PrecedeTotale(x.0, y.0);
    PrecedeTotale(x.1, y.1);
  }

  lemma PrecedeCoppiaTransitivo(x: (string, string), y: (string, string), z: (string, string))
    requires PrecedeCoppia(x, y) && PrecedeCoppia(y, z)
    ensures PrecedeCoppia(x, z)
  {
    PrecedeTotale(x.0, y.0);
    PrecedeTotale(y.0, z.0);
    PrecedeTotale(x.0, z.0);
    if x.0 == y.0 && y.0 == z.0 {
      CmpTransitivo(x.1, y.1, z.1);
    } else if x.0 != y.0 && y.0 != z.0 {
      CmpTransitivo(x.0, y.0, z.0);
    }
  }

  /** The elements of `s` are in strictly increasing order of their keys, as
      the elements of a TreeSet ordered by `key` are. */
  predicate Ordinata<T>(s: seq<T>, key: T -> string)
  {
    forall i, j :: 0 <= i < j < |s| ==> Precede(key(s[i]), key(s[j]))
  }

  /** No element of `s` has the key `k`. */
  predicate Assente<T>(s: seq<T>, k: string, key: T -> string)
  {
    forall i :: 0 <= i < |s| ==> key(s[i]) != k
  }

  /** TreeSet.add of an element whose key is not yet present. */
  function Inserisci<T>(s: seq<T>, x: T, key: T -> string): (r: seq<T>)
    ensures multiset(r) == multiset(s) + multiset{x}
  {
    if s == [] then [x]
    else if Precede(key(x), key(s[0])) then [x] + s
    else
      assert s == [s[0]] + s[1..];
      [s[0]] + Inserisci(s[1..], x, key)
  }

  lemma {:induction false} InserisciOrdinata<T>(s: seq<T>, x: T, key: T -> string)
    requires Ordinata(s, key) && Assente(s, key(x), key)
    ensures Ordinata(Inserisci(s, x, key), key)
  {
    if s == [] {
    } else if Precede(key(x), key(s[0])) {
      var r := [x] + s;
      forall i, j | 0 <= i < j < |r| ensures Precede(key(r[i]), key(r[j])) {
        if i == 0 && j > 1 {
          CmpTransitivo(key(x), key(s[0]), key(s[j - 1]));
        }
      }
    } else {
      var t := s[1..];
      InserisciOrdinata(t, x, key);
      PrecedeTotale(key(x), key(s[0]));
      var r := [s[0]] + Inserisci(t, x, key);
      forall i, j | 0 <= i < j < |r| ensures Precede(key(r[i]), key(r[j])) {
        if i == 0 {
          assert r[j] in multiset(Inserisci(t, x, key));
          assert r[j] in t || r[j] == x;
        }
      }
    }
  }
}
