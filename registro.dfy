/**
 * The holdings cache of a trader, a TreeMap<Azione, Integer> in the Java
 * code: a sequence of entries kept in the order of Borsa.Azione.compareTo,
 * where two listings are the same key when their exchange names and company
 * names are equal.
 */
module Registro {
  import opened Esito
  import opened Ordine

  /** A key of the cache: exchange name, then company name. The objects
      that carry it are described by their names only. */
  type Chiave = (string, string)

  /** One cached entry: the listing object stored as key and the quantity. */
  datatype Voce<A> = Voce(azione: A, quantita: int)

  /** The key of every entry of `s`. */
  function Chiavi<A>(s: seq<Voce<A>>, key: A -> Chiave): set<Chiave>
  {
    set i | 0 <= i < |s| :: key(s[i].azione)
  }

  /** The keys of `s` strictly increase, as those of a TreeMap do. */
  predicate VociOrdinate<A>(s: seq<Voce<A>>, key: A -> Chiave)
  {
    forall i, j :: 0 <= i < j < |s| ==> PrecedeCoppia(key(s[i].azione), key(s[j].azione))
  }

  /** TreeMap.get: the quantity stored under key `k`, if any. */
  function Get<A>(s: seq<Voce<A>>, k: Chiave, key: A -> Chiave): (r: Option<int>)
    ensures r.None? <==> k !in Chiavi(s, key)
  {
    if s == [] then None
    else if key(s[0].azione) == k then Some(s[0].quantita)
    else
      assert Chiavi(s, key) == {key(s[0].azione)} + Chiavi(s[1..], key);
      Get(s[1..], k, key)
  }

  /** TreeMap.put: replaces the quantity of an existing key (keeping the
      stored key object) or inserts a new entry in key order. */
  function Put<A>(s: seq<Voce<A>>, a: A, q: int, key: A -> Chiave): (r: seq<Voce<A>>)
    ensures Get(r, key(a), key) == Some(q)
    ensures forall k :: k != key(a) ==> Get(r, k, key) == Get(s, k, key)
    ensures Chiavi(r, key) == Chiavi(s, key) + {key(a)}
  {
    if s == [] then [Voce(a, q)]
    else
      assert Chiavi(s, key) == {key(s[0].azione)} + Chiavi(s[1..], key);
      if key(s[0].azione) == key(a) then
        var r := [Voce(s[0].azione, q)] + s[1..];
        assert r[1..] == s[1..];
        assert Chiavi(r, key) == {key(r[0].azione)} + Chiavi(r[1..], key);
        r
      else if PrecedeCoppia(key(a), key(s[0].azione)) then
        var r := [Voce(a, q)] + s;
        assert r[1..] == s;
        assert Chiavi(r, key) == {key(r[0].azione)} + Chiavi(r[1..], key);
        r
      else
        var r := [s[0]] + Put(s[1..], a, q, key);
        assert r[1..] == Put(s[1..], a, q, key);
        assert Chiavi(r, key) == {key(r[0].azione)} + Chiavi(r[1..], key);
        r
  }

  /** TreeMap.remove of key `k`. */
  function Rimuovi<A>(s: seq<Voce<A>>, k: Chiave, key: A -> Chiave): (r: seq<Voce<A>>)
    ensures Get(r, k, key) == None
    ensures forall k' :: k' != k ==> Get(r, k', key) == Get(s, k', key)
    ensures Chiavi(r, key) == Chiavi(s, key) - {k}
  {
    if s == [] then []
    else
      assert Chiavi(s, key) == {key(s[0].azione)} + Chiavi(s[1..], key);
      if key(s[0].azione) == k then Rimuovi(s[1..], k, key)
      else
        var r := [s[0]] + Rimuovi(s[1..], k, key);
        assert r[1..] == Rimuovi(s[1..], k, key);
        assert Chiavi(r, key) == {key(r[0].azione)} + Chiavi(r[1..], key);
        r
  }

  lemma ChiaviIndice<A>(s: seq<Voce<A>>, i: int, key: A -> Chiave)
    requires 0 <= i < |s|
    ensures key(s[i].azione) in Chiavi(s, key)
  {
  }

  /** Every key of `t` lies after the head of `s` when `t` holds only keys
      of the tail of `s` and keys after that head. */
  lemma DopoLaTesta<A>(s: seq<Voce<A>>, t: seq<Voce<A>>, extra: set<Chiave>, key: A -> Chiave)
    requires VociOrdinate(s, key) && s != []
    requires Chiavi(t, key) <= Chiavi(s[1..], key) + extra
    requires forall k :: k in extra ==> PrecedeCoppia(key(s[0].azione), k)
    ensures forall j :: 0 <= j < |t| ==> PrecedeCoppia(key(s[0].azione), key(t[j].azione))
  {
    forall j | 0 <= j < |t| ensures PrecedeCoppia(key(s[0].azione), key(t[j].azione)) {
      ChiaviIndice(t, j, key);
      var k := key(t[j].azione);
      if k !in extra {
        var m :| 0 <= m < |s[1..]| && key(s[1..][m].azione) == k;
        assert PrecedeCoppia(key(s[0].azione), key(s[m + 1].azione));
      }
    }
  }

  /** `[v] + t` is in key order when `t` is and every key of `t` follows `v`'s. */
  lemma InTesta<A>(v: Voce<A>, t: seq<Voce<A>>, key: A -> Chiave)
    requires VociOrdinate(t, key)
    requires forall j :: 0 <= j < |t| ==> PrecedeCoppia(key(v.azione), key(t[j].azione))
    ensures VociOrdinate([v] + t, key)
  {
    var r := [v] + t;
    forall i, j | 0 <= i < j < |r| ensures PrecedeCoppia(key(r[i].azione), key(r[j].azione)) {
      if i > 0 {
        assert r[i] == t[i - 1] && r[j] == t[j - 1];
      }
    }
  }

  lemma {:induction false} PutOrdinata<A>(s: seq<Voce<A>>, a: A, q: int, key: A -> Chiave)
    requires VociOrdinate(s, key)
    ensures VociOrdinate(Put(s, a, q, key), key)
  {
    if s != [] {
      if key(s[0].azione) == key(a) {
        assert VociOrdinate(s[1..], key);
        DopoLaTesta(s, s[1..], {}, key);
        InTesta(Voce(s[0].azione, q), s[1..], key);
      } else if PrecedeCoppia(key(a), key(s[0].azione)) {
        forall j | 0 <= j < |s| ensures PrecedeCoppia(key(a), key(s[j].azione)) {
          if j > 0 {
            PrecedeCoppiaTransitivo(key(a), key(s[0].azione), key(s[j].azione));
          }
        }
        InTesta(Voce(a, q), s, key);
      } else {
        var t := Put(s[1..], a, q, key);
        assert VociOrdinate(s[1..], key);
        PutOrdinata(s[1..], a, q, key);
        PrecedeCoppiaTotale(key(a), key(s[0].azione));
        DopoLaTesta(s, t, {key(a)}, key);
        InTesta(s[0], t, key);
      }
    }
  }

  lemma {:induction false} RimuoviOrdinata<A>(s: seq<Voce<A>>, k: Chiave, key: A -> Chiave)
    requires VociOrdinate(s, key)
    ensures VociOrdinate(Rimuovi(s, k, key), key)
  {
    if s != [] {
      RimuoviOrdinata(s[1..], k, key);
      if key(s[0].azione) != k {
        var t := Rimuovi(s[1..], k, key);
        var r := [s[0]] + t;
        forall i, j | 0 <= i < j < |r| ensures PrecedeCoppia(key(r[i].azione), key(r[j].azione)) {
          if i == 0 {
            ChiaviIndice(t, j - 1, key);
            var m :| 0 <= m < |s[1..]| && key(s[1..][m].azione) == key(t[j - 1].azione);
            assert PrecedeCoppia(key(s[0].azione), key(s[m + 1].azione));
          }
        }
      }
    }
  }
}
