/**
 * The exchange trading engine: companies (Azienda) list shares on exchanges
 * (Borsa); each listing (Borsa.Azione in the Java code, Azione here) keeps
 * its issued quantity, its unit price and its ledger of owners; traders
 * (Operatore) hold a budget and a cache of their holdings, and buy and sell
 * through the exchange, which may reprice the listing with a pricing policy.
 */
module Borsanova {
  import opened Esito
  import opened Nomi
  import opened Ordine
  import opened Registro
  import opened PoliticaPrezzo

  type Positivo = x: int | x > 0 witness 1

  // ---- keys of the sorted collections (all compareTo by name) ----

  function NomeBorsa(b: Borsa): string { b.nome }
  function NomeOperatore(o: Operatore): string { o.nome }
  function NomeAziendaDi(a: Azione): string { a.azienda.nome }
  /** The compareTo key of a listing: exchange name, then company name. */
  function ChiaveAzione(a: Azione): Chiave { (a.borsa.nome, a.azienda.nome) }

  function Iniziale(n: Nome): char
  {
    NomeNonVuoto(n);
    n[0]
  }

  /** Some listing in `s` belongs to a company named `nome`. */
  predicate Quotata(s: seq<Azione>, nome: string)
  {
    exists i :: 0 <= i < |s| && s[i].azienda.nome == nome
  }

  /** The first listing in `s` of the company named `nome`. */
  function Listino(s: seq<Azione>, nome: string): (a: Azione)
    requires Quotata(s, nome)
    ensures a in s && a.azienda.nome == nome
  {
    if s[0].azienda.nome == nome then s[0]
    else
      assert Quotata(s[1..], nome) by {
        var i :| 0 <= i < |s| && s[i].azienda.nome == nome;
        assert s[1..][i - 1] == s[i];
      }
      Listino(s[1..], nome)
  }

  /** In an ordered set of listings, at most one belongs to each company. */
  lemma ListinoUnico(s: seq<Azione>, nome: string, a: Azione)
    requires Ordinata(s, NomeAziendaDi)
    requires a in s && a.azienda.nome == nome
    ensures Quotata(s, nome) && Listino(s, nome) == a
  {
    var i :| 0 <= i < |s| && s[i] == a;
    var l := Listino(s, nome);
    var j :| 0 <= j < |s| && s[j] == l;
    if i != j {
      PrecedeTotale(nome, nome);
    }
  }

  /** Some exchange in `s` has the name `nome` (Borsa.equals compares names). */
  predicate Contiene(s: seq<Borsa>, nome: string)
  {
    exists i :: 0 <= i < |s| && s[i].nome == nome
  }

  /** Some trader in `s` has the name `nome`. */
  predicate Registrato(s: seq<Operatore>, nome: string)
  {
    exists i :: 0 <= i < |s| && s[i].nome == nome
  }

  /** TreeSet.add on the traders of an exchange, which compare by name: a
      trader whose name is already there leaves the set as it is. */
  function ConOperatore(s: seq<Operatore>, o: Operatore): (r: seq<Operatore>)
    ensures Registrato(r, o.nome)
    ensures Registrato(s, o.nome) ==> r == s
    ensures !Registrato(s, o.nome) ==> multiset(r) == multiset(s) + multiset{o}
    ensures Ordinata(s, NomeOperatore) ==> Ordinata(r, NomeOperatore)
  {
    if Registrato(s, o.nome) then s
    else
      var r := Inserisci(s, o, NomeOperatore);
      assert Ordinata(s, NomeOperatore) ==> Ordinata(r, NomeOperatore) by {
        if Ordinata(s, NomeOperatore) {
          InserisciOrdinata(s, o, NomeOperatore);
        }
      }
      assert o in multiset(r);
      r
  }

  /** The three guards of a purchase of `investimento` at unit price
      `valore`, in the order the Java code tests them, and the number of
      shares it buys (integer division). */
  function Verifica(investimento: int, budget: int, valore: Positivo, disponibili: int): (r: Result<nat>)
    ensures r.Ok? <==> investimento <= budget && investimento >= valore && investimento / valore <= disponibili
    ensures investimento > budget ==> r == Err(FondiInsufficienti)
    ensures investimento <= budget && investimento < valore ==> r == Err(FondiInsufficienti)
    ensures investimento <= budget && investimento >= valore && investimento / valore > disponibili ==> r == Err(AzioniInsufficienti)
    ensures r.Ok? ==> r.value >= 1 && r.value <= disponibili
  {
    if investimento > budget then Err(FondiInsufficienti)
    else if investimento < valore then Err(FondiInsufficienti)
    else if investimento / valore > disponibili then Err(AzioniInsufficienti)
    else Ok(investimento / valore)
  }

  /** An accepted purchase buys the largest whole number of shares the
      amount invested pays for, costs at most the budget, and leaves the
      trader the uninvested part of the budget plus the remainder. */
  lemma VerificaQuota(investimento: int, budget: int, valore: Positivo, disponibili: int)
    requires Verifica(investimento, budget, valore, disponibili).Ok?
    ensures var n := Verifica(investimento, budget, valore, disponibili).value;
      && n * valore <= investimento < (n + 1) * valore
      && 0 < n * valore <= budget
      && budget - n * valore == (budget - investimento) + investimento % valore
  {
  }

  // ---- the holdings cache seen through listings ----

  /** The quantity stored for the first entry (in key order) whose company is
      named `nome`: the search of Operatore.mostraQuantitaAzione. */
  function PrimaPerAzienda(s: seq<Voce<Azione>>, nome: string): (r: Option<int>)
    ensures r.None? <==> forall i :: 0 <= i < |s| ==> s[i].azione.azienda.nome != nome
    ensures r.Some? ==> exists i :: 0 <= i < |s| && s[i].azione.azienda.nome == nome && r.value == s[i].quantita
                                  && forall j :: 0 <= j < i ==> s[j].azione.azienda.nome != nome
  {
    if s == [] then None
    else if s[0].azione.azienda.nome == nome then Some(s[0].quantita)
    else
      var r := PrimaPerAzienda(s[1..], nome);
      assert forall i :: 1 <= i < |s| ==> s[i] == s[1..][i - 1];
      r
  }

  /** The quantity Operatore.investi stores after buying `n` shares: the
      first holding of the company plus `n` when this very listing is held,
      otherwise `n` alone. */
  function Accresciuta(possiede: bool, prima: Option<int>, n: int): int
  {
    if possiede && prima.Some? then prima.value + n else n
  }

  /** The guards shared by Borsa.vendita and Operatore.vendi: the holding
      read by company name (`detenute`) must exist, and the quantity sold may
      exceed it only when the seller does not hold this very listing
      (`possiede`).  On success, the quantity left after the sale. */
  function VerificaVendita(detenute: Option<int>, possiede: bool, quantita: int): (r: Result<int>)
    ensures detenute.None? ==> r == Err(NonTrovato)
    ensures r.Ok? <==> detenute.Some? && (possiede ==> quantita <= detenute.value)
    ensures r.Err? ==> r.error in {NonTrovato, AzioniInsufficienti}
    ensures detenute.Some? && r.Err? ==> r.error == AzioniInsufficienti
    ensures r.Ok? ==> r.value + quantita == detenute.value && (possiede ==> r.value >= 0)
  {
    match detenute
    case None => Err(NonTrovato)
    case Some(held) => if possiede && held < quantita then Err(AzioniInsufficienti) else Ok(held - quantita)
  }

  /** Total value of the cached holdings at the listings' current prices. */
  function ValoreTotale(s: seq<Voce<Azione>>): int
    reads set i | 0 <= i < |s| :: s[i].azione
  {
    if s == [] then 0
    else ValoreTotale(s[..|s| - 1]) + s[|s| - 1].azione.valore * s[|s| - 1].quantita
  }

  /** With non-negative quantities the portfolio value is non-negative, and
      it is zero for an empty cache. */
  lemma {:induction false} ValoreTotaleNonNegativo(s: seq<Voce<Azione>>)
    requires forall i :: 0 <= i < |s| ==> s[i].quantita >= 0
    ensures ValoreTotale(s) >= 0
    ensures s == [] ==> ValoreTotale(s) == 0
  {
    if s != [] {
      ValoreTotaleNonNegativo(s[..|s| - 1]);
      assert s[|s| - 1].azione.valore * s[|s| - 1].quantita >= 0;
    }
  }

  /** The ledger entry of `o` on listing `a`, as the cache must mirror it. */
  function Mirror(a: Azione, o: Operatore): Option<int>
    reads a
  {
    if a.AzioniDetenute(o) > 0 then Some(a.AzioniDetenute(o)) else None
  }

  /** One step of the resynchronisation: copy the ledger entry of `o` on
      `a` into the cache, or drop the entry when `o` holds none. */
  function Allinea(cache: seq<Voce<Azione>>, a: Azione, o: Operatore): seq<Voce<Azione>>
    reads a
  {
    if a.AzioniDetenute(o) > 0 then Put(cache, a, a.AzioniDetenute(o), ChiaveAzione)
    else Rimuovi(cache, ChiaveAzione(a), ChiaveAzione)
  }

  /** The cache of `o` after resynchronising it, listing by listing in
      order, with the ledgers of `listini`. */
  function Risincronizza(cache: seq<Voce<Azione>>, listini: seq<Azione>, o: Operatore): seq<Voce<Azione>>
    reads set i | 0 <= i < |listini| :: listini[i]
  {
    if listini == [] then cache
    else Allinea(Risincronizza(cache, listini[..|listini| - 1], o), listini[|listini| - 1], o)
  }

  predicate ChiaviDistinte(listini: seq<Azione>)
  {
    forall i, j :: 0 <= i < j < |listini| ==> ChiaveAzione(listini[i]) != ChiaveAzione(listini[j])
  }

  predicate Estranea(listini: seq<Azione>, k: Chiave)
  {
    forall i :: 0 <= i < |listini| ==> ChiaveAzione(listini[i]) != k
  }

  /** After resynchronisation the cache holds, for every listing of the
      exchange, exactly the positive ledger entry of the trader (and no
      entry when the ledger has none or zero or less), and is unchanged on
      the listings of other exchanges. */
  lemma {:induction false} RisincronizzaFedele(cache: seq<Voce<Azione>>, listini: seq<Azione>, o: Operatore)
    requires ChiaviDistinte(listini)
    ensures forall i :: 0 <= i < |listini| ==>
      Get(Risincronizza(cache, listini, o), ChiaveAzione(listini[i]), ChiaveAzione) == Mirror(listini[i], o)
    ensures forall k :: Estranea(listini, k) ==>
      Get(Risincronizza(cache, listini, o), k, ChiaveAzione) == Get(cache, k, ChiaveAzione)
  {
    if listini != [] {
      var n := |listini| - 1;
      var prima := listini[..n];
      RisincronizzaFedele(cache, prima, o);
      var r := Risincronizza(cache, prima, o);
      assert Risincronizza(cache, listini, o) == Allinea(r, listini[n], o);
      forall i | 0 <= i < |listini|
        ensures Get(Allinea(r, listini[n], o), ChiaveAzione(listini[i]), ChiaveAzione) == Mirror(listini[i], o)
      {
        if i < n {
          assert prima[i] == listini[i];
        }
      }
      forall k | Estranea(listini, k)
        ensures Get(Allinea(r, listini[n], o), k, ChiaveAzione) == Get(cache, k, ChiaveAzione)
      {
        assert Estranea(prima, k) by {
          forall i | 0 <= i < |prima| ensures ChiaveAzione(prima[i]) != k {
            assert prima[i] == listini[i];
          }
        }
      }
    }
  }

  /** Resynchronising twice gives the same holdings as resynchronising once. */
  lemma RisincronizzaIdempotente(cache: seq<Voce<Azione>>, listini: seq<Azione>, o: Operatore)
    requires ChiaviDistinte(listini)
    ensures forall k :: Get(Risincronizza(Risincronizza(cache, listini, o), listini, o), k, ChiaveAzione)
                     == Get(Risincronizza(cache, listini, o), k, ChiaveAzione)
  {
    var r1 := Risincronizza(cache, listini, o);
    var r2 := Risincronizza(r1, listini, o);
    RisincronizzaFedele(cache, listini, o);
    RisincronizzaFedele(r1, listini, o);
    forall k ensures Get(r2, k, ChiaveAzione) == Get(r1, k, ChiaveAzione) {
      if !Estranea(listini, k) {
        var i :| 0 <= i < |listini| && ChiaveAzione(listini[i]) == k;
      }
    }
  }

  lemma {:induction false} RisincronizzaOrdinata(cache: seq<Voce<Azione>>, listini: seq<Azione>, o: Operatore)
    requires VociOrdinate(cache, ChiaveAzione)
    ensures VociOrdinate(Risincronizza(cache, listini, o), ChiaveAzione)
  {
    if listini != [] {
      var n := |listini| - 1;
      RisincronizzaOrdinata(cache, listini[..n], o);
      var r := Risincronizza(cache, listini[..n], o);
      if listini[n].AzioniDetenute(o) > 0 {
        PutOrdinata(r, listini[n], listini[n].AzioniDetenute(o), ChiaveAzione);
      } else {
        RimuoviOrdinata(r, ChiaveAzione(listini[n]), ChiaveAzione);
      }
    }
  }

  /** The amount Azione.quantita counts as sold for one trader: the cached
      quantity found by company name, when the trader holds this listing. */
  function VendutaDa(o: Operatore, a: Azione): int
    reads o
  {
    if o.PossiedeAzione(a) then
      match PrimaPerAzienda(o.azioniPossedute, a.azienda.nome)
      case Some(q) => q
      case None => 0
    else 0
  }

  /** The sum of VendutaDa over the traders of the exchange. */
  function Vendute(operatori: seq<Operatore>, a: Azione): int
    reads set i | 0 <= i < |operatori| :: operatori[i]
  {
    if operatori == [] then 0
    else Vendute(operatori[..|operatori| - 1], a) + VendutaDa(operatori[|operatori| - 1], a)
  }

  /** A ledger entry, 0 for a trader with none (TreeMap.getOrDefault). */
  function Quota(proprietari: map<string, int>, nome: string): int
  {
    if nome in proprietari then proprietari[nome] else 0
  }

  function Positiva(x: int): nat
  {
    if x > 0 then x else 0
  }

  /** The shares the ledger `proprietari` records as held by the traders
      `operatori`: the sum of their positive entries. */
  function Detenute(operatori: seq<Operatore>, proprietari: map<string, int>): int
  {
    if operatori == [] then 0
    else Positiva(Quota(proprietari, operatori[0].nome)) + Detenute(operatori[1..], proprietari)
  }

  lemma {:induction false} DetenuteCoda(s: seq<Operatore>, p: map<string, int>)
    requires s != []
    ensures Detenute(s, p) == Detenute(s[..|s| - 1], p) + Positiva(Quota(p, s[|s| - 1].nome))
  {
    if |s| > 1 {
      DetenuteCoda(s[1..], p);
      assert s[1..][..|s| - 2] == s[..|s| - 1][1..];
      assert s[1..][|s| - 2] == s[|s| - 1];
    }
  }

  /** The cache of `o` agrees with the ledger of `a`: under `a`'s key it
      holds the positive ledger entry and nothing otherwise, and when `o`
      holds `a` the search by company name finds that very entry. */
  predicate Allineato(o: Operatore, a: Azione)
    reads o, a
  {
    && Get(o.azioniPossedute, ChiaveAzione(a), ChiaveAzione) == Mirror(a, o)
    && (o.PossiedeAzione(a) ==>
          PrimaPerAzienda(o.azioniPossedute, a.azienda.nome) == Get(o.azioniPossedute, ChiaveAzione(a), ChiaveAzione))
  }

  /** With cache and ledger in agreement, the trader holds the listing
      exactly when the ledger entry is positive, and what Azione.quantita
      counts as sold to the trader is that entry. */
  lemma CacheSpecchio(o: Operatore, a: Azione)
    requires Allineato(o, a)
    ensures o.PossiedeAzione(a) <==> a.AzioniDetenute(o) > 0
    ensures VendutaDa(o, a) == Positiva(a.AzioniDetenute(o))
  {
  }

  /** Conservation: when every trader's cache agrees with the ledger, the
      shares Azione.quantita counts as sold are those the ledger records. */
  lemma {:induction false} VenduteDalRegistro(operatori: seq<Operatore>, a: Azione)
    requires forall i :: 0 <= i < |operatori| ==> Allineato(operatori[i], a)
    ensures Vendute(operatori, a) == Detenute(operatori, a.proprietari)
  {
    if operatori != [] {
      var n := |operatori| - 1;
      assert forall i :: 0 <= i < n ==> operatori[..n][i] == operatori[i];
      VenduteDalRegistro(operatori[..n], a);
      DetenuteCoda(operatori, a.proprietari);
      CacheSpecchio(operatori[n], a);
    }
  }

  /** Writing the ledger entry of `nome` changes the shares held by the
      traders of a valid exchange by the difference of the positive parts,
      when a trader of that name is among them, and not at all otherwise. */
  lemma {:induction false} DetenuteAggiorna(s: seq<Operatore>, p: map<string, int>, nome: string, q: int)
    requires Ordinata(s, NomeOperatore)
    ensures Detenute(s, p[nome := q]) ==
      Detenute(s, p) + (if Registrato(s, nome) then Positiva(q) - Positiva(Quota(p, nome)) else 0)
  {
    if s != [] {
      assert forall i :: 0 <= i < |s| - 1 ==> s[1..][i] == s[i + 1];
      DetenuteAggiorna(s[1..], p, nome, q);
      if s[0].nome == nome {
        assert !Registrato(s[1..], nome) by {
          forall i | 0 <= i < |s| - 1 ensures s[1..][i].nome != nome {
            assert Precede(s[0].nome, s[i + 1].nome);
            PrecedeTotale(nome, nome);
          }
        }
      } else {
        assert Registrato(s, nome) == Registrato(s[1..], nome);
      }
    }
  }

  /** TreeSet.add of a trader adds its positive ledger entry to the shares
      held by the exchange's traders. */
  lemma {:induction false} DetenuteInserisci(s: seq<Operatore>, p: map<string, int>, o: Operatore)
    ensures Detenute(Inserisci(s, o, NomeOperatore), p) == Detenute(s, p) + Positiva(Quota(p, o.nome))
  {
    if s != [] && !Precede(o.nome, s[0].nome) {
      DetenuteInserisci(s[1..], p, o);
      assert ([s[0]] + Inserisci(s[1..], o, NomeOperatore))[1..] == Inserisci(s[1..], o, NomeOperatore);
    }
  }

  /** Borsa.acquisto of `n` shares by a trader who held none of the listing
      (ledger put of `n`, then TreeSet.add of the trader) raises the shares
      held on the exchange by exactly `n`, so the quantity available drops
      by `n`. */
  lemma AcquistoDetenute(s: seq<Operatore>, p: map<string, int>, o: Operatore, n: nat)
    requires Ordinata(s, NomeOperatore)
    requires Quota(p, o.nome) <= 0
    ensures Detenute(ConOperatore(s, o), p[o.nome := n]) == Detenute(s, p) + n
  {
    DetenuteAggiorna(s, p, o.nome, n);
    if !Registrato(s, o.nome) {
      DetenuteInserisci(s, p[o.nome := n], o);
    }
  }

  /** Every cached entry of the company of `a` is the entry of `a`: the
      trader holds that company on this exchange only. */
  predicate SoloQui(s: seq<Voce<Azione>>, a: Azione)
  {
    forall i :: 0 <= i < |s| && s[i].azione.azienda.nome == a.azienda.nome ==>
      ChiaveAzione(s[i].azione) == ChiaveAzione(a)
  }

  /** When the trader holds the company on this exchange only, the search by
      company name of mostraQuantitaAzione finds the listing's own entry. */
  lemma {:induction false} PrimaPerAziendaUnica(s: seq<Voce<Azione>>, a: Azione)
    requires SoloQui(s, a)
    ensures PrimaPerAzienda(s, a.azienda.nome) == Get(s, ChiaveAzione(a), ChiaveAzione)
  {
    if s != [] && s[0].azione.azienda.nome != a.azienda.nome {
      assert forall i :: 0 <= i < |s| - 1 ==> s[1..][i] == s[i + 1];
      PrimaPerAziendaUnica(s[1..], a);
    }
  }

  /** Operatore.investi by a trader holding the company on this exchange
      only: the quantity it stores for the listing is the listing's own
      cached quantity plus the shares bought when the listing is held, and
      just the shares bought otherwise. */
  lemma InvestimentoAccumula(s: seq<Voce<Azione>>, a: Azione, possiede: bool, n: int)
    requires SoloQui(s, a)
    requires possiede ==> Get(s, ChiaveAzione(a), ChiaveAzione).Some?
    ensures possiede ==>
      Accresciuta(possiede, PrimaPerAzienda(s, a.azienda.nome), n) == Get(s, ChiaveAzione(a), ChiaveAzione).value + n
    ensures !possiede ==> Accresciuta(possiede, PrimaPerAzienda(s, a.azienda.nome), n) == n
  {
    PrimaPerAziendaUnica(s, a);
  }

  // ---- Azienda ----

  /** A company: its name and the exchanges it has asked to be listed on. */
  class Azienda {
    const nome: Nome
    /** TreeSet<Borsa> ordered by exchange name. */
    var borseQuotate: seq<Borsa>

    ghost predicate Valid()
      reads this
    {
      Ordinata(borseQuotate, NomeBorsa)
    }

    constructor (nome: Nome)
      ensures this.nome == nome && borseQuotate == [] && Valid()
    {
      this.nome := nome;
      borseQuotate := [];
    }

    /** Azienda.of: the factory, checking and updating the registry of
        company names. */
    static method Of(usati: set<string>, name: string) returns (r: Result<Azienda>, nuoviUsati: set<string>)
      ensures Registra(usati, name).Err? ==> r == Err(Registra(usati, name).error) && nuoviUsati == usati
      ensures Registra(usati, name).Ok? ==>
        && nuoviUsati == Registra(usati, name).value
        && r.Ok? && fresh(r.value) && r.value.nome == name && r.value.borseQuotate == [] && r.value.Valid()
    {
      var reg := Registra(usati, name);
      if reg.Err? {
        return Err(reg.error), usati;
      }
      var a := new Azienda(name);
      return Ok(a), reg.value;
    }

    /** Azienda.compareTo: by name, with String.compareTo. */
    function CompareTo(altra: Azienda): (r: int)
      ensures r == 0 <==> nome == altra.nome
      ensures r == -Cmp(altra.nome, nome)
    {
      CmpZeroSeUguali(nome, altra.nome);
      CmpAntisimmetrico(nome, altra.nome);
      Cmp(nome, altra.nome)
    }

    /** Azienda.quotazioneInBorsa: rejects a non-positive quantity or price;
        does nothing on an exchange already in borseQuotate; otherwise adds
        the exchange to borseQuotate and then asks it to create the listing.
        The exchange stays in borseQuotate even when that creation fails. */
    method QuotazioneInBorsa(borsa: Borsa, numeroAzioni: int, valorePerAzione: int) returns (esito: Outcome)
      requires Valid() && borsa.Valid()
      modifies this, borsa
      ensures Valid() && borsa.Valid()
      ensures borsa.operatoriBorsa == old(borsa.operatoriBorsa) && borsa.politicaPrezzo == old(borsa.politicaPrezzo)
      ensures numeroAzioni <= 0 || valorePerAzione <= 0 ==>
        esito == Fail(ArgomentoNonValido) && borseQuotate == old(borseQuotate) && borsa.azioniQuotate == old(borsa.azioniQuotate)
      ensures numeroAzioni > 0 && valorePerAzione > 0 && Contiene(old(borseQuotate), borsa.nome) ==>
        esito == Pass && borseQuotate == old(borseQuotate) && borsa.azioniQuotate == old(borsa.azioniQuotate)
      ensures numeroAzioni > 0 && valorePerAzione > 0 && !Contiene(old(borseQuotate), borsa.nome) ==>
        && borseQuotate == Inserisci(old(borseQuotate), borsa, NomeBorsa)
        && (esito.Pass? <==> !Quotata(old(borsa.azioniQuotate), nome))
        && (esito.Fail? ==> esito == Fail(GiaQuotata) && borsa.azioniQuotate == old(borsa.azioniQuotate))
        && (esito.Pass? ==> exists a: Azione :: fresh(a) && borsa.azioniQuotate == Inserisci(old(borsa.azioniQuotate), a, NomeAziendaDi)
                                       && a.azienda == this && a.borsa == borsa && a.valore == valorePerAzione
                                       && a.quantita == numeroAzioni && a.proprietari == map[])
    {
      if numeroAzioni <= 0 || valorePerAzione <= 0 {
        return Fail(ArgomentoNonValido);
      }
      if Contiene(borseQuotate, borsa.nome) {
        return Pass;
      }
      InserisciOrdinata(borseQuotate, borsa, NomeBorsa);
      borseQuotate := Inserisci(borseQuotate, borsa, NomeBorsa);
      assert borsa in multiset(borseQuotate);
      esito := borsa.QuotaAzienda(this, valorePerAzione, numeroAzioni);
    }
  }

  // ---- Borsa ----

  /** An exchange: its listings, the traders that bought on it, and the
      optional pricing policy. */
  class Borsa {
    const nome: Nome
    /** TreeSet<Azione>: within one exchange, ordered by company name. */
    var azioniQuotate: seq<Azione>
    /** TreeSet<Operatore> ordered by trader name. */
    var operatoriBorsa: seq<Operatore>
    /** null in the Java code until a policy is set. */
    var politicaPrezzo: Option<Politica>

    ghost predicate Valid()
      reads this
    {
      && Ordinata(azioniQuotate, NomeAziendaDi)
      && Ordinata(operatoriBorsa, NomeOperatore)
      && forall i :: 0 <= i < |azioniQuotate| ==> azioniQuotate[i].borsa == this
    }

    constructor (nome: Nome)
      ensures this.nome == nome && azioniQuotate == [] && operatoriBorsa == [] && politicaPrezzo == None
      ensures Valid()
    {
      this.nome := nome;
      azioniQuotate := [];
      operatoriBorsa := [];
      politicaPrezzo := None;
    }

    /** Borsa.of: the factory, checking and updating the registry of
        exchange names. */
    static method Of(usati: set<string>, name: string) returns (r: Result<Borsa>, nuoviUsati: set<string>)
      ensures Registra(usati, name).Err? ==> r == Err(Registra(usati, name).error) && nuoviUsati == usati
      ensures Registra(usati, name).Ok? ==>
        && nuoviUsati == Registra(usati, name).value
        && r.Ok? && fresh(r.value) && r.value.nome == name && r.value.Valid()
        && r.value.azioniQuotate == [] && r.value.operatoriBorsa == [] && r.value.politicaPrezzo == None
    {
      var reg := Registra(usati, name);
      if reg.Err? {
        return Err(reg.error), usati;
      }
      var b := new Borsa(name);
      return Ok(b), reg.value;
    }

    /** The listings of a valid exchange have pairwise distinct keys. */
    lemma ChiaviQuotateDistinte()
      requires Valid()
      ensures ChiaviDistinte(azioniQuotate)
    {
      forall i, j | 0 <= i < j < |azioniQuotate|
        ensures ChiaveAzione(azioniQuotate[i]) != ChiaveAzione(azioniQuotate[j])
      {
        PrecedeTotale(NomeAziendaDi(azioniQuotate[i]), NomeAziendaDi(azioniQuotate[j]));
      }
    }

    /** Borsa.politicaPrezzo(PoliticaPrezzo): replaces the policy. */
    method ImpostaPoliticaPrezzo(p: Politica)
      modifies this
      ensures politicaPrezzo == Some(p)
      ensures azioniQuotate == old(azioniQuotate) && operatoriBorsa == old(operatoriBorsa)
    {
      politicaPrezzo := Some(p);
    }

    /** Borsa.QuotaAzienda: creates the listing when quantity and price are
        positive, the company is not yet listed here, and this exchange is in
        the company's borseQuotate; otherwise fails and changes nothing. */
    method QuotaAzienda(azienda: Azienda, valoreAzione: int, quantitaAzione: int) returns (esito: Outcome)
      requires Valid()
      modifies this
      ensures Valid()
      ensures operatoriBorsa == old(operatoriBorsa) && politicaPrezzo == old(politicaPrezzo)
      ensures quantitaAzione <= 0 || valoreAzione <= 0 ==> esito == Fail(ArgomentoNonValido)
      ensures (quantitaAzione > 0 && valoreAzione > 0 && Quotata(old(azioniQuotate), azienda.nome)) ==>
        esito == Fail(GiaQuotata)
      ensures (quantitaAzione > 0 && valoreAzione > 0 && !Quotata(old(azioniQuotate), azienda.nome)
               && !Contiene(azienda.borseQuotate, nome)) ==> esito == Fail(QuotazioneNonAutorizzata)
      ensures esito.Pass? <==> (quantitaAzione > 0 && valoreAzione > 0 && !Quotata(old(azioniQuotate), azienda.nome)
                                && Contiene(azienda.borseQuotate, nome))
      ensures esito.Fail? ==> azioniQuotate == old(azioniQuotate)
      ensures esito.Pass? ==> exists a: Azione :: fresh(a) && azioniQuotate == Inserisci(old(azioniQuotate), a, NomeAziendaDi)
                                       && a.azienda == azienda && a.borsa == this && a.valore == valoreAzione
                                       && a.quantita == quantitaAzione && a.proprietari == map[]
    {
      if quantitaAzione <= 0 || valoreAzione <= 0 {
        return Fail(ArgomentoNonValido);
      }
      if Quotata(azioniQuotate, azienda.nome) {
        return Fail(GiaQuotata);
      }
      var borse := azienda.borseQuotate;
      var i := 0;
      while i < |borse| && borse[i].nome != nome
        invariant 0 <= i <= |borse|
        invariant forall j :: 0 <= j < i ==> borse[j].nome != nome
      {
        i := i + 1;
      }
      if i == |borse| {
        return Fail(QuotazioneNonAutorizzata);
      }
      var nuova := new Azione(this, azienda, valoreAzione, quantitaAzione);
      InserisciOrdinata(azioniQuotate, nuova, NomeAziendaDi);
      var nuove := Inserisci(azioniQuotate, nuova, NomeAziendaDi);
      forall j | 0 <= j < |nuove| ensures nuove[j].borsa == this {
        assert nuove[j] in multiset(nuove);
      }
      azioniQuotate := nuove;
      return Pass;
    }

    /** Borsa.cercaAzioneBorsa: the listing of the company with that name, or
        NoSuchElementException. */
    method CercaAzioneBorsa(azienda: Azienda) returns (r: Result<Azione>)
      ensures r.Ok? <==> Quotata(azioniQuotate, azienda.nome)
      ensures r.Ok? ==> r.value == Listino(azioniQuotate, azienda.nome)
      ensures r.Err? ==> r.error == NonTrovato
    {
      var s := azioniQuotate;
      for i := 0 to |s|
        invariant forall j :: 0 <= j < i ==> s[j].azienda.nome != azienda.nome
        invariant Quotata(s, azienda.nome) ==> Listino(s, azienda.nome) == Listino(s[i..], azienda.nome)
      {
        if s[i].azienda.nome == azienda.nome {
          return Ok(s[i]);
        }
        assert s[i..][1..] == s[i + 1..];
      }
      return Err(NonTrovato);
    }

    /** TreeSet.add on operatoriBorsa: a trader whose name is already there
        leaves the set unchanged. */
    method AggiungiOperatore(operatore: Operatore)
      requires Valid()
      modifies this
      ensures Valid()
      ensures azioniQuotate == old(azioniQuotate) && politicaPrezzo == old(politicaPrezzo)
      ensures operatoriBorsa == ConOperatore(old(operatoriBorsa), operatore)
    {
      operatoriBorsa := ConOperatore(operatoriBorsa, operatore);
    }

    /** Borsa.appilicaPoliticaVendita: the policy's sale price becomes the
        unit price; with no policy set the Java code throws
        NullPointerException. */
    method ApplicaPoliticaVendita(azione: Azione, numeroAzioni: int) returns (esito: Outcome)
      modifies azione
      ensures azione.proprietari == old(azione.proprietari)
      ensures politicaPrezzo.None? ==> esito == Fail(PoliticaAssente) && azione.valore == old(azione.valore)
      ensures politicaPrezzo.Some? ==> (esito == Pass && azione.valore ==
        PoliticaPrezzo.Vendita(politicaPrezzo.value, old(azione.valore), numeroAzioni, Iniziale(azione.azienda.nome), Iniziale(azione.borsa.nome)))
    {
      if politicaPrezzo.None? {
        return Fail(PoliticaAssente);
      }
      var v := PoliticaPrezzo.Vendita(politicaPrezzo.value, azione.valore, numeroAzioni, Iniziale(azione.azienda.nome), Iniziale(azione.borsa.nome));
      azione.NuovoValore(v);
      return Pass;
    }

    /** Borsa.appilicaPoliticaAcquisto: the policy's purchase price becomes
        the unit price (the callers test for a policy first). */
    method ApplicaPoliticaAcquisto(azione: Azione, numeroAzioni: int)
      requires politicaPrezzo.Some?
      modifies azione
      ensures azione.proprietari == old(azione.proprietari)
      ensures azione.valore ==
        PoliticaPrezzo.Acquisto(politicaPrezzo.value, old(azione.valore), numeroAzioni, Iniziale(azione.azienda.nome), Iniziale(azione.borsa.nome))
    {
      var v := PoliticaPrezzo.Acquisto(politicaPrezzo.value, azione.valore, numeroAzioni, Iniziale(azione.azienda.nome), Iniziale(azione.borsa.nome));
      azione.NuovoValore(v);
    }

    /** What Borsa.acquisto decides in the current state: the listing is
        missing, a guard fails, or the number of shares bought. */
    ghost function EsitoAcquisto(operatore: Operatore, azienda: Azienda, investimento: int): Result<nat>
      reads this, operatore, set i | 0 <= i < |azioniQuotate| :: azioniQuotate[i]
      reads set i | 0 <= i < |operatoriBorsa| :: operatoriBorsa[i]
    {
      if Quotata(azioniQuotate, azienda.nome) then
        var a := Listino(azioniQuotate, azienda.nome);
        Verifica(investimento, operatore.budget, a.valore, a.quantita - Vendute(operatoriBorsa, a))
      else Err(NonTrovato)
    }

    /** Borsa.acquisto: finds the listing, checks the three guards against
        the trader's budget and the available quantity, withdraws the price
        of the whole shares bought, overwrites the trader's ledger entry with
        that number, reprices the listing with the policy (fed the amount
        invested) when one is set, records the trader and resynchronises the
        trader's cache with this exchange. */
    method Acquisto(operatore: Operatore, azienda: Azienda, investimento: int) returns (esito: Outcome)
      requires Valid() && operatore.Valid()
      modifies this, operatore, set l | l in azioniQuotate && l.azienda.nome == azienda.nome
      ensures Valid() && operatore.Valid()
      ensures azioniQuotate == old(azioniQuotate) && politicaPrezzo == old(politicaPrezzo)
      ensures !Quotata(azioniQuotate, azienda.nome) ==> esito == Fail(NonTrovato)
      ensures esito.Fail? ==> esito.error in {NonTrovato, FondiInsufficienti, AzioniInsufficienti}
      ensures esito.Fail? ==> operatore.budget == old(operatore.budget)
                              && operatore.azioniPossedute == old(operatore.azioniPossedute)
                              && operatoriBorsa == old(operatoriBorsa)
      ensures Quotata(azioniQuotate, azienda.nome) ==>
        var a := Listino(azioniQuotate, azienda.nome);
        var v := old(EsitoAcquisto(operatore, azienda, investimento));
        && (v.Err? ==> esito == Fail(v.error) && a.valore == old(a.valore) && a.proprietari == old(a.proprietari))
        && (v.Ok? ==>
            && esito == Pass
            && operatore.budget == old(operatore.budget) - v.value * old(a.valore)
            && operatore.budget >= 0
            && a.proprietari == old(a.proprietari)[operatore.nome := v.value]
            && a.valore == (if politicaPrezzo.Some?
                            then PoliticaPrezzo.Acquisto(politicaPrezzo.value, old(a.valore), investimento,
                                                         Iniziale(azienda.nome), Iniziale(nome))
                            else old(a.valore))
            && operatoriBorsa == ConOperatore(old(operatoriBorsa), operatore)
            && operatore.azioniPossedute == Risincronizza(old(operatore.azioniPossedute), azioniQuotate, operatore)
            && Get(operatore.azioniPossedute, ChiaveAzione(a), ChiaveAzione) == Some(v.value))
    {
      ghost var atteso := EsitoAcquisto(operatore, azienda, investimento);
      var c := CercaAzioneBorsa(azienda);
      if c.Err? {
        return Fail(c.error);
      }
      var azione := c.value;
      assert azione.borsa == this;
      var disponibili := azione.Quantita();
      var v := Verifica(investimento, operatore.budget, azione.valore, disponibili);
      assert v == atteso;
      if v.Err? {
        return Fail(v.error);
      }
      VerificaQuota(investimento, operatore.budget, azione.valore, disponibili);
      ghost var valore0 := azione.valore;
      esito := CompletaAcquisto(operatore, azione, v.value, investimento);
      assert azione == Listino(azioniQuotate, azienda.nome) && valore0 == old(azione.valore);
      assert atteso == Ok(v.value);
      assert Get(operatore.azioniPossedute, ChiaveAzione(Listino(azioniQuotate, azienda.nome)), ChiaveAzione) == Some(v.value);
    }

    /** The part of Borsa.acquisto after the guards have passed: withdraws
        the price of `n` shares, overwrites the ledger entry with `n`,
        reprices, records the trader and resynchronises its cache. */
    method CompletaAcquisto(operatore: Operatore, azione: Azione, n: int, investimento: int) returns (esito: Outcome)
      requires Valid() && operatore.Valid()
      requires azione in azioniQuotate && n >= 1 && n * azione.valore <= operatore.budget
      modifies this, operatore, azione
      ensures Valid() && operatore.Valid() && esito == Pass
      ensures azioniQuotate == old(azioniQuotate) && politicaPrezzo == old(politicaPrezzo)
      ensures operatore.budget == old(operatore.budget) - n * old(azione.valore) && operatore.budget >= 0
      ensures azione.proprietari == old(azione.proprietari)[operatore.nome := n]
      ensures azione.valore == (if politicaPrezzo.Some?
                                then PoliticaPrezzo.Acquisto(politicaPrezzo.value, old(azione.valore), investimento,
                                                             Iniziale(azione.azienda.nome), Iniziale(azione.borsa.nome))
                                else old(azione.valore))
      ensures operatoriBorsa == ConOperatore(old(operatoriBorsa), operatore)
      ensures operatore.azioniPossedute == Risincronizza(old(operatore.azioniPossedute), azioniQuotate, operatore)
      ensures Get(operatore.azioniPossedute, ChiaveAzione(azione), ChiaveAzione) == Some(n)
    {
      esito := operatore.Preleva(n * azione.valore);
      azione.proprietari := azione.proprietari[operatore.nome := n];
      ghost var proprietari1 := azione.proprietari;
      if politicaPrezzo.Some? {
        ApplicaPoliticaAcquisto(azione, investimento);
      }
      ghost var valore1 := azione.valore;
      AggiungiOperatore(operatore);
      operatore.AggiornaAzioni(this);
      assert azione.valore == valore1 && azione.proprietari == proprietari1;
      ChiaviQuotateDistinte();
      RisincronizzaFedele(old(operatore.azioniPossedute), azioniQuotate, operatore);
      var i :| 0 <= i < |azioniQuotate| && azioniQuotate[i] == azione;
      assert Mirror(azione, operatore) == Some(n);
    }

    /** Borsa.vendita: reads the trader's holding by company name (failing
        when there is none), refuses to sell more than held when the trader
        holds this very listing, writes the remaining quantity into the
        ledger, deposits the proceeds, reprices with the sale policy and
        resynchronises the trader's cache.  A non-positive deposit, or a
        missing policy, fails after the ledger (and, for the policy, the
        budget) has already changed. */
    method Vendita(operatore: Operatore, azione: Azione, quantita: int) returns (esito: Outcome)
      requires Valid() && operatore.Valid()
      modifies operatore, azione
      ensures operatore.Valid()
      ensures Valid()
      ensures var v := VerificaVendita(PrimaPerAzienda(old(operatore.azioniPossedute), azione.azienda.nome),
                                       old(operatore.PossiedeAzione(azione)), quantita);
        && (v.Err? ==>
            esito == Fail(v.error) && operatore.budget == old(operatore.budget)
            && operatore.azioniPossedute == old(operatore.azioniPossedute) && azione.proprietari == old(azione.proprietari)
            && azione.valore == old(azione.valore))
        && (v.Ok? ==>
            var ricavo := quantita * old(azione.valore);
            && azione.proprietari == old(azione.proprietari)[operatore.nome := v.value]
            && (ricavo <= 0 ==> esito == Fail(ArgomentoNonValido) && operatore.budget == old(operatore.budget)
                                && azione.valore == old(azione.valore)
                                && operatore.azioniPossedute == old(operatore.azioniPossedute))
            && (ricavo > 0 ==> operatore.budget == old(operatore.budget) + ricavo)
            && (ricavo > 0 && politicaPrezzo.None? ==>
                esito == Fail(PoliticaAssente) && azione.valore == old(azione.valore)
                && operatore.azioniPossedute == old(operatore.azioniPossedute))
            && (ricavo > 0 && politicaPrezzo.Some? ==>
                && esito == Pass
                && azione.valore == PoliticaPrezzo.Vendita(politicaPrezzo.value, old(azione.valore), quantita,
                                                           Iniziale(azione.azienda.nome), Iniziale(azione.borsa.nome))
                && operatore.azioniPossedute == Risincronizza(old(operatore.azioniPossedute), azioniQuotate, operatore)))
    {
      var controllo := operatore.ControllaVendita(azione, quantita);
      if controllo.Err? {
        return Fail(controllo.error);
      }
      esito := CompletaVendita(operatore, azione, quantita, controllo.value);
    }

    /** The part of Borsa.vendita after the guards have passed: the ledger
        entry becomes `resto`, then the deposit, the repricing and the
        resynchronisation follow, each able to stop the sale. */
    method CompletaVendita(operatore: Operatore, azione: Azione, quantita: int, resto: int) returns (esito: Outcome)
      requires Valid() && operatore.Valid()
      modifies operatore, azione
      ensures operatore.Valid()
      ensures Valid()
      ensures azione.proprietari == old(azione.proprietari)[operatore.nome := resto]
      ensures var ricavo := quantita * old(azione.valore);
        && (ricavo <= 0 ==> esito == Fail(ArgomentoNonValido) && operatore.budget == old(operatore.budget)
                            && azione.valore == old(azione.valore)
                            && operatore.azioniPossedute == old(operatore.azioniPossedute))
        && (ricavo > 0 ==> operatore.budget == old(operatore.budget) + ricavo)
        && (ricavo > 0 && politicaPrezzo.None? ==>
            esito == Fail(PoliticaAssente) && azione.valore == old(azione.valore)
            && operatore.azioniPossedute == old(operatore.azioniPossedute))
        && (ricavo > 0 && politicaPrezzo.Some? ==>
            && esito == Pass
            && azione.valore == PoliticaPrezzo.Vendita(politicaPrezzo.value, old(azione.valore), quantita,
                                                       Iniziale(azione.azienda.nome), Iniziale(azione.borsa.nome))
            && operatore.azioniPossedute == Risincronizza(old(operatore.azioniPossedute), azioniQuotate, operatore))
    {
      azione.proprietari := azione.proprietari[operatore.nome := resto];
      var ricavo := quantita * azione.valore;
      esito := operatore.Deposita(ricavo);
      if esito.Fail? {
        return;
      }
      esito := ApplicaPoliticaVendita(azione, quantita);
      if esito.Fail? {
        return;
      }
      operatore.AggiornaAzioni(this);
    }
  }

  // ---- Azione ----

  /** A listing of one company on one exchange (Borsa.Azione, an inner
      class of Borsa in the Java code: `borsa` is its enclosing exchange). */
  class Azione {
    const azienda: Azienda
    const borsa: Borsa
    var valore: Positivo
    /** The number of shares issued. */
    const quantita: Positivo
    /** TreeMap<Operatore, Integer>, whose keys compare by trader name. */
    var proprietari: map<string, int>

    constructor (borsa: Borsa, azienda: Azienda, valore: Positivo, quantita: Positivo)
      ensures this.borsa == borsa && this.azienda == azienda
      ensures this.valore == valore && this.quantita == quantita && proprietari == map[]
    {
      this.borsa := borsa;
      this.azienda := azienda;
      this.valore := valore;
      this.quantita := quantita;
      proprietari := map[];
    }

    /** Azione.azioniDetenute: the ledger entry of the trader, 0 when absent. */
    function AzioniDetenute(o: Operatore): int
      reads this
    {
      Quota(proprietari, o.nome)
    }

    /** Azione.nuovoValore. */
    method NuovoValore(v: Positivo)
      modifies this
      ensures valore == v && proprietari == old(proprietari)
    {
      valore := v;
    }

    /** Azione.compareTo: exchange name first, then company name. */
    function CompareTo(altra: Azione): (r: int)
      ensures r == 0 <==> ChiaveAzione(this) == ChiaveAzione(altra)
      ensures r < 0 <==> PrecedeCoppia(ChiaveAzione(this), ChiaveAzione(altra))
      ensures r > 0 <==> PrecedeCoppia(ChiaveAzione(altra), ChiaveAzione(this))
    {
      CmpZeroSeUguali(borsa.nome, altra.borsa.nome);
      CmpAntisimmetrico(borsa.nome, altra.borsa.nome);
      if borsa.nome == altra.borsa.nome then azienda.CompareTo(altra.azienda)
      else Cmp(borsa.nome, altra.borsa.nome)
    }

    /** Azione.quantita(): the issued quantity minus what the traders of the
        exchange who hold this listing hold of the company. */
    method Quantita() returns (r: int)
      ensures r == quantita - Vendute(borsa.operatoriBorsa, this)
    {
      var operatori := borsa.operatoriBorsa;
      var vendute := 0;
      for i := 0 to |operatori|
        invariant vendute == Vendute(operatori[..i], this)
      {
        var o := operatori[i];
        if o.PossiedeAzione(this) {
          var q := o.MostraQuantitaAzione(azienda);
          vendute := vendute + q.value;
        }
        assert operatori[..i + 1][..i] == operatori[..i];
      }
      assert operatori[..|operatori|] == operatori;
      r := quantita - vendute;
    }
  }

  // ---- Operatore ----

  /** A trader: a budget and a cache of the listings held, keyed and ordered
      like the TreeMap<Azione, Integer> of the Java code. */
  class Operatore {
    const nome: Nome
    var budget: int
    var azioniPossedute: seq<Voce<Azione>>

    ghost predicate Valid()
      reads this
    {
      VociOrdinate(azioniPossedute, ChiaveAzione)
    }

    constructor (nome: Nome)
      ensures this.nome == nome && budget == 0 && azioniPossedute == [] && Valid()
    {
      this.nome := nome;
      budget := 0;
      azioniPossedute := [];
    }

    /** Operatore.of: the factory, checking and updating the registry of
        trader names. */
    static method Of(usati: set<string>, name: string) returns (r: Result<Operatore>, nuoviUsati: set<string>)
      ensures Registra(usati, name).Err? ==> r == Err(Registra(usati, name).error) && nuoviUsati == usati
      ensures Registra(usati, name).Ok? ==>
        && nuoviUsati == Registra(usati, name).value
        && r.Ok? && fresh(r.value) && r.value.nome == name && r.value.Valid()
        && r.value.budget == 0 && r.value.azioniPossedute == []
    {
      var reg := Registra(usati, name);
      if reg.Err? {
        return Err(reg.error), usati;
      }
      var o := new Operatore(name);
      return Ok(o), reg.value;
    }

    /** Operatore.compareTo: by name, with String.compareTo. */
    function CompareTo(altro: Operatore): (r: int)
      ensures r == 0 <==> nome == altro.nome
      ensures r == -Cmp(altro.nome, nome)
    {
      CmpZeroSeUguali(nome, altro.nome);
      CmpAntisimmetrico(nome, altro.nome);
      Cmp(nome, altro.nome)
    }

    /** Operatore.mostraQuantitaAzione: the quantity of the first cached
        entry (in key order) whose company has that name, on whatever
        exchange; NoSuchElementException when there is none. */
    method MostraQuantitaAzione(azienda: Azienda) returns (r: Result<int>)
      ensures r.Err? <==> PrimaPerAzienda(azioniPossedute, azienda.nome).None?
      ensures r.Err? ==> r.error == NonTrovato
      ensures r.Ok? ==> Some(r.value) == PrimaPerAzienda(azioniPossedute, azienda.nome)
    {
      var s := azioniPossedute;
      for i := 0 to |s|
        invariant forall j :: 0 <= j < i ==> s[j].azione.azienda.nome != azienda.nome
        invariant PrimaPerAzienda(s, azienda.nome) == PrimaPerAzienda(s[i..], azienda.nome)
      {
        if s[i].azione.azienda.nome == azienda.nome {
          return Ok(s[i].quantita);
        }
        assert s[i..][1..] == s[i + 1..];
      }
      return Err(NonTrovato);
    }

    /** Operatore.possiedeAzione: the listing is a key of the cache with a
        positive quantity. */
    function PossiedeAzione(a: Azione): (r: bool)
      reads this
      ensures r <==> ChiaveAzione(a) in Chiavi(azioniPossedute, ChiaveAzione)
                     && Get(azioniPossedute, ChiaveAzione(a), ChiaveAzione).value > 0
      ensures r ==> PrimaPerAzienda(azioniPossedute, a.azienda.nome).Some?
    {
      var g := Get(azioniPossedute, ChiaveAzione(a), ChiaveAzione);
      if g.Some? then
        assert exists i :: 0 <= i < |azioniPossedute| && ChiaveAzione(azioniPossedute[i].azione) == ChiaveAzione(a);
        g.value > 0
      else false
    }

    /** Operatore.investi: finds the listing, checks the same three guards
        as Borsa.acquisto, withdraws the price of the whole shares bought and
        adds them to the cache (on top of the quantity found by company name
        when the listing is already held, otherwise recording the trader on
        the exchange), then reprices with the purchase policy if one is set.
        The listing's ledger is not touched. */
    method Investi(borsa: Borsa, azienda: Azienda, investimento: int) returns (esito: Outcome)
      requires Valid() && borsa.Valid()
      modifies this, borsa, set l | l in borsa.azioniQuotate && l.azienda.nome == azienda.nome
      ensures Valid() && borsa.Valid()
      ensures borsa.azioniQuotate == old(borsa.azioniQuotate) && borsa.politicaPrezzo == old(borsa.politicaPrezzo)
      ensures !Quotata(borsa.azioniQuotate, azienda.nome) ==> esito == Fail(NonTrovato)
      ensures esito.Fail? ==> esito.error in {NonTrovato, FondiInsufficienti, AzioniInsufficienti}
      ensures esito.Fail? ==> budget == old(budget) && azioniPossedute == old(azioniPossedute)
                              && borsa.operatoriBorsa == old(borsa.operatoriBorsa)
      ensures Quotata(borsa.azioniQuotate, azienda.nome) ==>
        var a := Listino(borsa.azioniQuotate, azienda.nome);
        var v := old(borsa.EsitoAcquisto(this, azienda, investimento));
        && (v.Err? ==> esito == Fail(v.error) && a.valore == old(a.valore) && a.proprietari == old(a.proprietari))
        && (v.Ok? ==>
            && esito == Pass
            && budget == old(budget) - v.value * old(a.valore)
            && budget >= 0
            && azioniPossedute == Put(old(azioniPossedute), a,
                 Accresciuta(old(PossiedeAzione(a)), old(PrimaPerAzienda(azioniPossedute, azienda.nome)), v.value),
                 ChiaveAzione)
            && (old(PossiedeAzione(a)) ==> borsa.operatoriBorsa == old(borsa.operatoriBorsa))
            && (!old(PossiedeAzione(a)) ==> borsa.operatoriBorsa == ConOperatore(old(borsa.operatoriBorsa), this))
            && a.valore == (if borsa.politicaPrezzo.Some?
                            then PoliticaPrezzo.Acquisto(borsa.politicaPrezzo.value, old(a.valore), investimento,
                                                         Iniziale(azienda.nome), Iniziale(borsa.nome))
                            else old(a.valore))
            && a.proprietari == old(a.proprietari))
    {
      ghost var atteso := borsa.EsitoAcquisto(this, azienda, investimento);
      var c := borsa.CercaAzioneBorsa(azienda);
      if c.Err? {
        return Fail(c.error);
      }
      var azione := c.value;
      assert azione.borsa == borsa;
      var disponibili := azione.Quantita();
      var v := Verifica(investimento, budget, azione.valore, disponibili);
      assert v == atteso;
      if v.Err? {
        return Fail(v.error);
      }
      VerificaQuota(investimento, budget, azione.valore, disponibili);
      ghost var valore0 := azione.valore;
      esito := CompletaInvestimento(borsa, azione, azienda, v.value, investimento);
      assert azione == Listino(borsa.azioniQuotate, azienda.nome) && valore0 == old(azione.valore);
      assert atteso == Ok(v.value);
    }

    /** The part of Operatore.investi after the guards have passed. */
    method CompletaInvestimento(borsa: Borsa, azione: Azione, azienda: Azienda, n: int, investimento: int)
      returns (esito: Outcome)
      requires Valid() && borsa.Valid()
      requires azione.azienda.nome == azienda.nome
      requires n >= 1 && n * azione.valore <= budget
      modifies this, borsa, azione
      ensures Valid() && borsa.Valid() && esito == Pass
      ensures borsa.azioniQuotate == old(borsa.azioniQuotate) && borsa.politicaPrezzo == old(borsa.politicaPrezzo)
      ensures azione.proprietari == old(azione.proprietari)
      ensures budget == old(budget) - n * old(azione.valore) && budget >= 0
      ensures azioniPossedute == Put(old(azioniPossedute), azione,
        Accresciuta(old(PossiedeAzione(azione)), old(PrimaPerAzienda(azioniPossedute, azienda.nome)), n),
        ChiaveAzione)
      ensures old(PossiedeAzione(azione)) ==> borsa.operatoriBorsa == old(borsa.operatoriBorsa)
      ensures !old(PossiedeAzione(azione)) ==> borsa.operatoriBorsa == ConOperatore(old(borsa.operatoriBorsa), this)
      ensures azione.valore == (if borsa.politicaPrezzo.Some?
                                then PoliticaPrezzo.Acquisto(borsa.politicaPrezzo.value, old(azione.valore), investimento,
                                                             Iniziale(azione.azienda.nome), Iniziale(azione.borsa.nome))
                                else old(azione.valore))
    {
      esito := Preleva(n * azione.valore);
      var possiede := PossiedeAzione(azione);
      var nuovaQuantita := n;
      if possiede {
        var q := MostraQuantitaAzione(azienda);
        nuovaQuantita := q.value + n;
      }
      assert nuovaQuantita == Accresciuta(possiede, PrimaPerAzienda(azioniPossedute, azienda.nome), n);
      Memorizza(azione, nuovaQuantita);
      ghost var cache := azioniPossedute;
      ghost var budget1 := budget;
      if !possiede {
        borsa.AggiungiOperatore(this);
      }
      if borsa.politicaPrezzo.Some? {
        borsa.ApplicaPoliticaAcquisto(azione, investimento);
      }
      assert azioniPossedute == cache && budget == budget1;
    }

    /** Operatore.vendi: reads the holding by company name (failing when
        there is none), refuses to sell more than held only when this very
        listing is held, stores the remaining quantity in the cache, credits
        the proceeds at the current price with no check on their sign, and
        reprices with the sale policy if one is set.  The listing's ledger
        is not touched. */
    method Vendi(borsa: Borsa, azione: Azione, quantita: int) returns (esito: Outcome)
      requires Valid()
      modifies this, azione
      ensures Valid()
      ensures azione.proprietari == old(azione.proprietari)
      ensures var v := VerificaVendita(PrimaPerAzienda(old(azioniPossedute), azione.azienda.nome),
                                       old(PossiedeAzione(azione)), quantita);
        && (v.Err? ==>
            esito == Fail(v.error) && budget == old(budget) && azioniPossedute == old(azioniPossedute)
            && azione.valore == old(azione.valore))
        && (v.Ok? ==>
            && esito == Pass
            && budget == old(budget) + old(azione.valore) * quantita
            && azioniPossedute == Put(old(azioniPossedute), azione, v.value, ChiaveAzione)
            && azione.valore == (if borsa.politicaPrezzo.Some?
                                 then PoliticaPrezzo.Vendita(borsa.politicaPrezzo.value, old(azione.valore), quantita,
                                                             Iniziale(azione.azienda.nome), Iniziale(azione.borsa.nome))
                                 else old(azione.valore)))
    {
      var controllo := ControllaVendita(azione, quantita);
      if controllo.Err? {
        return Fail(controllo.error);
      }
      esito := CompletaVendi(borsa, azione, quantita, controllo.value);
    }

    /** The guard shared by Operatore.vendi and Borsa.vendita: the quantity
        held of the company by name (NoSuchElementException when there is
        none), and the refusal to sell more than that when this very listing
        is held.  On success, the quantity left after the sale. */
    method ControllaVendita(azione: Azione, quantita: int) returns (r: Result<int>)
      ensures r == VerificaVendita(PrimaPerAzienda(azioniPossedute, azione.azienda.nome), PossiedeAzione(azione), quantita)
    {
      var m := MostraQuantitaAzione(azione.azienda);
      if m.Err? {
        return Err(m.error);
      }
      var held := m.value;
      if PossiedeAzione(azione) && held < quantita {
        return Err(AzioniInsufficienti);
      }
      return Ok(held - quantita);
    }

    /** The part of Operatore.vendi after the guards have passed. */
    method CompletaVendi(borsa: Borsa, azione: Azione, quantita: int, resto: int) returns (esito: Outcome)
      requires Valid()
      modifies this, azione
      ensures Valid() && esito == Pass
      ensures azione.proprietari == old(azione.proprietari)
      ensures budget == old(budget) + old(azione.valore) * quantita
      ensures azioniPossedute == Put(old(azioniPossedute), azione, resto, ChiaveAzione)
      ensures azione.valore == (if borsa.politicaPrezzo.Some?
                                then PoliticaPrezzo.Vendita(borsa.politicaPrezzo.value, old(azione.valore), quantita,
                                                            Iniziale(azione.azienda.nome), Iniziale(azione.borsa.nome))
                                else old(azione.valore))
    {
      Memorizza(azione, resto);
      ghost var cache := azioniPossedute;
      budget := budget + azione.valore * quantita;
      esito := Pass;
      if borsa.politicaPrezzo.Some? {
        esito := borsa.ApplicaPoliticaVendita(azione, quantita);
      }
      assert azioniPossedute == cache;
    }

    /** TreeMap.put on the holdings cache. */
    method Memorizza(azione: Azione, q: int)
      requires Valid()
      modifies this
      ensures Valid() && budget == old(budget)
      ensures azioniPossedute == Put(old(azioniPossedute), azione, q, ChiaveAzione)
    {
      PutOrdinata(azioniPossedute, azione, q, ChiaveAzione);
      azioniPossedute := Put(azioniPossedute, azione, q, ChiaveAzione);
    }

    /** Operatore.deposita. */
    method Deposita(importo: int) returns (esito: Outcome)
      modifies this
      ensures azioniPossedute == old(azioniPossedute)
      ensures importo <= 0 ==> esito == Fail(ArgomentoNonValido) && budget == old(budget)
      ensures importo > 0 ==> esito == Pass && budget == old(budget) + importo
    {
      if importo <= 0 {
        return Fail(ArgomentoNonValido);
      }
      budget := budget + importo;
      return Pass;
    }

    /** Operatore.preleva: never leaves the budget negative. */
    method Preleva(importo: int) returns (esito: Outcome)
      modifies this
      ensures azioniPossedute == old(azioniPossedute)
      ensures importo > old(budget) ==> esito == Fail(FondiInsufficienti) && budget == old(budget)
      ensures importo <= old(budget) ==> esito == Pass && budget == old(budget) - importo
      ensures esito.Pass? && importo >= 0 ==> 0 <= budget <= old(budget)
    {
      if importo > budget {
        return Fail(FondiInsufficienti);
      }
      budget := budget - importo;
      return Pass;
    }

    /** Operatore.valoreAzioni: the cached holdings valued at the current
        unit prices. */
    method ValoreAzioni() returns (r: int)
      ensures r == ValoreTotale(azioniPossedute)
    {
      var s := azioniPossedute;
      r := 0;
      for i := 0 to |s|
        invariant r == ValoreTotale(s[..i])
      {
        assert s[..i + 1][..i] == s[..i];
        r := r + s[i].azione.valore * s[i].quantita;
      }
      assert s[..|s|] == s;
    }

    /** The resynchronisation of the cache with an exchange (called
        aggiornaAzioni by Borsa): each listing of the exchange, in order,
        copies the trader's ledger entry into the cache, or drops it when it
        is not positive. */
    method AggiornaAzioni(borsa: Borsa)
      requires Valid()
      modifies this
      ensures Valid()
      ensures budget == old(budget)
      ensures azioniPossedute == Risincronizza(old(azioniPossedute), borsa.azioniQuotate, this)
    {
      var listini := borsa.azioniQuotate;
      var cache := azioniPossedute;
      for i := 0 to |listini|
        invariant VociOrdinate(cache, ChiaveAzione)
        invariant budget == old(budget) && azioniPossedute == old(azioniPossedute)
        invariant cache == Risincronizza(azioniPossedute, listini[..i], this)
      {
        var a := listini[i];
        var q := a.AzioniDetenute(this);
        if q > 0 {
          PutOrdinata(cache, a, q, ChiaveAzione);
          cache := Put(cache, a, q, ChiaveAzione);
        } else {
          RimuoviOrdinata(cache, ChiaveAzione(a), ChiaveAzione);
          cache := Rimuovi(cache, ChiaveAzione(a), ChiaveAzione);
        }
        assert listini[..i + 1][..i] == listini[..i];
      }
      assert listini[..|listini|] == listini;
      azioniPossedute := cache;
    }
  }
}
