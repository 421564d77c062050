# borsanova in Dafny

A model of the trading engine of *borsanova* (snapshot `progetto-7c9249e`): the
exchange (`Borsa`) with its listings (`Borsa.Azione`), the trader
(`Operatore`), the company (`Azienda`) and the five pricing policies.

- Companies list shares on exchanges.
- Traders deposit and withdraw money, and buy and sell shares through an
  exchange or directly.
- After each trade the exchange may reprice the listing with its pricing policy.

The model keeps the Java code's own behaviour, including the places where it
departs from its own javadoc and representation invariants (see "Behaviour kept from the code").

Modules, one file each:

- `esito.dfy` (`Esito`): the outcome types. Each Java exception becomes an
  `Errore` case, carried by `Result` (a value or an error) or `Outcome` (pass
  or fail).
- `nomi.dfy` (`Nomi`): `String.isBlank` and the uniqueness check that the
  three factories `of` make against their name registries.
- `ordine.dfy` (`Ordine`): `String.compareTo` and the strict total order it
  induces. Also the sorted insertion of a `TreeSet`, and the order of listings
  (exchange name, then company name).
- `registro.dfy` (`Registro`): the trader's `TreeMap<Azione, Integer>` as a
  strictly sorted sequence of entries, with `get`, `put` and `remove`; both
  updates keep the sequence sorted.
- `politica_prezzo.dfy` (`PoliticaPrezzo`): the five policies as one
  datatype, with each rule as a pure function from the current price (plus the
  traded count and the initials of the names) to the new price.
- `borsanova.dfy` (`Borsanova`): the classes `Azienda`, `Borsa`, `Azione` and
  `Operatore`, whose methods update their fields in place, as the Java objects
  do.

`TreeSet` and `TreeMap` fields are sequences kept strictly sorted by the
`compareTo` key. The class predicates `Valid()` state that order, and each
mutating method proves that it preserves it. The listing ledger
`TreeMap<Operatore, Integer>` is a `map<string, int>` keyed by trader name,
which is what `Operatore.compareTo` compares. The unit price of a listing has
the type `Positivo` (the `valore > 0` invariant), so every repricing proves
that the policy's result is at least 1.

Some names the code calls are defined nowhere in it. The model reads them as
follows:

- `Operatore.aggiornaAzioni`, called after every exchange-mediated trade, is
  `Operatore.AggiornaAzioni`. It resynchronises the cache from the ledgers of
  the exchange's listings: a positive entry is copied, any other entry removes
  the cached key.
- `Borsa.aggiungiOperatore` is `Borsa.AggiungiOperatore`, the `TreeSet.add` on
  `operatoriBorsa`.
- `mostraPoliticaPrezzo()` is the read of the `politicaPrezzo` field.
- The interface methods are declared `void`, but `Borsa` uses their `int`
  result. Each policy is therefore a function returning the new price.
- `newValue` is `nuovoValore`, and `azione.borsa()` is `nomeBorsa()`.

The static name registries (`ISTANZE`, `nomiUsatiOperatore`,
`Nomi_Usati_Aziende`) are explicit sets, passed to the factories `Of` and
returned updated.

## Behaviour kept from the code

Where the Java code does something other than its javadoc, its representation
invariants or its parameter names say, the model follows the code:

- `Borsa.acquisto` overwrites the buyer's ledger entry with the shares of this
  trade (`put`). It does not add them to earlier holdings.
- The purchase policy receives the amount invested, not the number of shares
  bought that its javadoc names (`numeroAzioni`, Borsa.java:106-107).
- `Borsa.vendita` and `Operatore.vendi` refuse to oversell only when the
  seller holds this very listing with a positive quantity. The quantity they
  read is the first holding of the company by name, possibly on another
  exchange. A sale can therefore leave a negative ledger or cache entry and a
  budget that grew, against the representation invariant
  `azioniPossedute.values() >= 0` (Operatore.java:30).
- `Borsa.vendita` writes the ledger before it deposits the proceeds.
  - A non-positive amount fails in `deposita` after the ledger has changed.
  - A missing policy fails (a `NullPointerException` in the code) after the
    ledger and the budget have changed.
  - The model returns those errors with exactly that state.
- `Operatore.vendi` credits the proceeds with no check on their sign. It
  writes the remaining quantity into the cache even when it is zero or
  negative.
- `Operatore.preleva` refuses only amounts above the budget. A negative amount
  raises the budget.
- `Azienda.quotazioneInBorsa` on an exchange already in `borseQuotate` does
  nothing and reports no error. When the exchange then refuses the listing,
  `borseQuotate` keeps the exchange; there is no rollback.
- `VariazioneCostante` stores its step as given. A non-negative step is the
  caller's obligation (a precondition of `NuovaVariazioneCostante`).
  `Vocali` accepts any character.
- `Soglia.vendita` sets the price to 1 whenever half of it is below 1,
  whatever the traded count.

## Model

| member | source | states |
|---|---|---|
| Nomi.Registra | progetto-7c9249e-2025-01-23-18-02-28/progetto-7c9249e-2025-01-23-18-02-28/src/main/java/borsanova/Azienda.java:31-38 | a blank name fails with NomeVuoto, a used name with NomeInUso (in both directions); on success the name was unused and is added to the registry |
| Nomi.RegistraDueVolte | progetto-7c9249e-2025-01-23-18-02-28/progetto-7c9249e-2025-01-23-18-02-28/src/main/java/borsanova/Azienda.java:34-36 | creating two entities with the same name fails the second time with NomeInUso |
| Nomi.NomeNonVuoto | progetto-7c9249e-2025-01-23-18-02-28/progetto-7c9249e-2025-01-23-18-02-28/src/main/java/borsanova/PoliticaPrezzo/Vocali.java:31 | an accepted (non-blank) name has a first character, so the `charAt(0)` of Vocali is defined |
| Ordine.CmpAntisimmetrico | progetto-7c9249e-2025-01-23-18-02-28/progetto-7c9249e-2025-01-23-18-02-28/src/main/java/borsanova/Azienda.java:99-101 | String.compareTo is antisymmetric: compare(a, b) = -compare(b, a) |
| Ordine.CmpZeroSeUguali | progetto-7c9249e-2025-01-23-18-02-28/progetto-7c9249e-2025-01-23-18-02-28/src/main/java/borsanova/Operatore.java:199-201 | String.compareTo returns 0 exactly for equal strings, so name order identifies entities by name |
| Ordine.CmpTransitivo | progetto-7c9249e-2025-01-23-18-02-28/progetto-7c9249e-2025-01-23-18-02-28/src/main/java/borsanova/Borsa.java:218-220 | the order String.compareTo induces is transitive |
| Ordine.PrecedeTotale | progetto-7c9249e-2025-01-23-18-02-28/progetto-7c9249e-2025-01-23-18-02-28/src/main/java/borsanova/Borsa.java:218-220 | name order is a strict total order (irreflexive, total on distinct names, asymmetric) |
| Ordine.PrecedeCoppiaTotale | progetto-7c9249e-2025-01-23-18-02-28/progetto-7c9249e-2025-01-23-18-02-28/src/main/java/borsanova/Borsa.java:328-331 | the listing order (exchange name, then company name) is a strict total order |
| Ordine.PrecedeCoppiaTransitivo | progetto-7c9249e-2025-01-23-18-02-28/progetto-7c9249e-2025-01-23-18-02-28/src/main/java/borsanova/Borsa.java:328-331 | the listing order is transitive |
| Ordine.Inserisci | progetto-7c9249e-2025-01-23-18-02-28/progetto-7c9249e-2025-01-23-18-02-28/src/main/java/borsanova/Borsa.java:140 | TreeSet.add of a new element: the result holds the old elements plus exactly that one (as multisets) |
| Ordine.InserisciOrdinata | progetto-7c9249e-2025-01-23-18-02-28/progetto-7c9249e-2025-01-23-18-02-28/src/main/java/borsanova/Azienda.java:65 | adding an element whose key is absent keeps a sorted set strictly sorted |
| Registro.Get | progetto-7c9249e-2025-01-23-18-02-28/progetto-7c9249e-2025-01-23-18-02-28/src/main/java/borsanova/Operatore.java:97 | TreeMap.get finds nothing exactly when the key is not among the map's keys |
| Registro.Put | progetto-7c9249e-2025-01-23-18-02-28/progetto-7c9249e-2025-01-23-18-02-28/src/main/java/borsanova/Operatore.java:142 | after TreeMap.put the key maps to the new quantity, every other key keeps its value, and the key set gains exactly that key |
| Registro.Rimuovi | progetto-7c9249e-2025-01-23-18-02-28/progetto-7c9249e-2025-01-23-18-02-28/src/main/java/borsanova/Borsa.java:181 | after TreeMap.remove the key maps to nothing, every other key keeps its value, and the key set loses exactly that key |
| Registro.PutOrdinata | progetto-7c9249e-2025-01-23-18-02-28/progetto-7c9249e-2025-01-23-18-02-28/src/main/java/borsanova/Operatore.java:120-125 | put keeps the cache strictly sorted by listing key |
| Registro.RimuoviOrdinata | progetto-7c9249e-2025-01-23-18-02-28/progetto-7c9249e-2025-01-23-18-02-28/src/main/java/borsanova/Borsa.java:201 | remove keeps the cache strictly sorted by listing key |
| PoliticaPrezzo.NuovoDecrementoCostante | progetto-7c9249e-2025-01-23-18-02-28/progetto-7c9249e-2025-01-23-18-02-28/src/main/java/borsanova/PoliticaPrezzo/DecrementoCostante.java:26-28 | the decrement is stored as the argument's absolute value, hence non-negative |
| PoliticaPrezzo.NuovoIncrementoCostante | progetto-7c9249e-2025-01-23-18-02-28/progetto-7c9249e-2025-01-23-18-02-28/src/main/java/borsanova/PoliticaPrezzo/IncrementoCostante.java:23-25 | the increment is stored as the argument's absolute value, hence non-negative |
| PoliticaPrezzo.NuovaVariazioneCostante | progetto-7c9249e-2025-01-23-18-02-28/progetto-7c9249e-2025-01-23-18-02-28/src/main/java/borsanova/PoliticaPrezzo/VariazioneCostante.java:23-25 | the step is stored as given; its invariant `variazione >= 0` is the caller's precondition |
| PoliticaPrezzo.NuovaSoglia | progetto-7c9249e-2025-01-23-18-02-28/progetto-7c9249e-2025-01-23-18-02-28/src/main/java/borsanova/PoliticaPrezzo/Soglia.java:27-29 | the threshold is stored as the argument's absolute value, hence non-negative |
| PoliticaPrezzo.Dimezza | progetto-7c9249e-2025-01-23-18-02-28/progetto-7c9249e-2025-01-23-18-02-28/src/main/java/borsanova/PoliticaPrezzo/Soglia.java:38 | Java's `v / 2`: rounds toward zero, bounded as 2r <= v < 2r + 2 for v >= 0 and symmetrically for v < 0 |
| PoliticaPrezzo.InnescoIniziali | progetto-7c9249e-2025-01-23-18-02-28/progetto-7c9249e-2025-01-23-18-02-28/src/main/java/borsanova/PoliticaPrezzo/Vocali.java:31-38 | Vocali reacts exactly when the company or exchange initial is the letter, its upper case, or a vowel of either case |
| PoliticaPrezzo.Vendita | progetto-7c9249e-2025-01-23-18-02-28/progetto-7c9249e-2025-01-23-18-02-28/src/main/java/borsanova/PoliticaPrezzo/DecrementoCostante.java:31-35 | for every policy, a sale at a price >= 1 yields a price between 1 and the old price |
| PoliticaPrezzo.Acquisto | progetto-7c9249e-2025-01-23-18-02-28/progetto-7c9249e-2025-01-23-18-02-28/src/main/java/borsanova/PoliticaPrezzo/IncrementoCostante.java:33-36 | for every policy, a purchase never lowers a non-negative price |
| PoliticaPrezzo.DecrementoCostanteRegola | progetto-7c9249e-2025-01-23-18-02-28/progetto-7c9249e-2025-01-23-18-02-28/src/main/java/borsanova/PoliticaPrezzo/DecrementoCostante.java:31-40 | sale: price - k when that is at least 1, otherwise 1; purchase: unchanged |
| PoliticaPrezzo.IncrementoCostanteRegola | progetto-7c9249e-2025-01-23-18-02-28/progetto-7c9249e-2025-01-23-18-02-28/src/main/java/borsanova/PoliticaPrezzo/IncrementoCostante.java:27-36 | purchase: exactly price + k; sale: unchanged |
| PoliticaPrezzo.VariazioneCostanteRegola | progetto-7c9249e-2025-01-23-18-02-28/progetto-7c9249e-2025-01-23-18-02-28/src/main/java/borsanova/PoliticaPrezzo/VariazioneCostante.java:27-36 | sale: price - k floored at 1; purchase: price + k |
| PoliticaPrezzo.VariazioneCostanteAndataRitorno | progetto-7c9249e-2025-01-23-18-02-28/progetto-7c9249e-2025-01-23-18-02-28/src/main/java/borsanova/PoliticaPrezzo/VariazioneCostante.java:29-35 | a purchase followed by a sale restores any price of at least 1 |
| PoliticaPrezzo.SogliaAcquisto | progetto-7c9249e-2025-01-23-18-02-28/progetto-7c9249e-2025-01-23-18-02-28/src/main/java/borsanova/PoliticaPrezzo/Soglia.java:47-50 | a purchase doubles a positive price if and only if the count exceeds the threshold, and otherwise leaves it unchanged |
| PoliticaPrezzo.SogliaVendita | progetto-7c9249e-2025-01-23-18-02-28/progetto-7c9249e-2025-01-23-18-02-28/src/main/java/borsanova/PoliticaPrezzo/Soglia.java:36-40 | a sale above the threshold halves a price >= 2 (floor); a price of 1 stays 1; at or below the threshold the price is unchanged |
| PoliticaPrezzo.VocaliRegola | progetto-7c9249e-2025-01-23-18-02-28/progetto-7c9249e-2025-01-23-18-02-28/src/main/java/borsanova/PoliticaPrezzo/Vocali.java:28-50 | with the trigger a purchase doubles the price once (not four times) and a sale halves it with a floor of 1; without it neither changes the price |
| Borsanova.Listino | progetto-7c9249e-2025-01-23-18-02-28/progetto-7c9249e-2025-01-23-18-02-28/src/main/java/borsanova/Borsa.java:156-157 | the listing found is on the exchange and belongs to the company of that name |
| Borsanova.ListinoUnico | progetto-7c9249e-2025-01-23-18-02-28/progetto-7c9249e-2025-01-23-18-02-28/src/main/java/borsanova/Borsa.java:136 | on a valid exchange a company has at most one listing, so lookup by company name finds that listing |
| Borsanova.ConOperatore | progetto-7c9249e-2025-01-23-18-02-28/progetto-7c9249e-2025-01-23-18-02-28/src/main/java/borsanova/Borsa.java:180 | TreeSet.add by name: afterwards the trader is registered; a registered name leaves the set unchanged; otherwise exactly the trader is added (as multisets); a strictly sorted set stays strictly sorted |
| Borsanova.Verifica | progetto-7c9249e-2025-01-23-18-02-28/progetto-7c9249e-2025-01-23-18-02-28/src/main/java/borsanova/Borsa.java:174-176 | a purchase passes if and only if the amount is within the budget, buys at least one share and does not exceed the available quantity; each failing guard gives its own error; the shares bought are between 1 and the quantity available |
| Borsanova.VerificaQuota | progetto-7c9249e-2025-01-23-18-02-28/progetto-7c9249e-2025-01-23-18-02-28/src/main/java/borsanova/Borsa.java:177 | the shares bought are the most the amount pays for; the debit is positive and within the budget; the trader keeps the uninvested budget plus `investimento mod valore` |
| Borsanova.PrimaPerAzienda | progetto-7c9249e-2025-01-23-18-02-28/progetto-7c9249e-2025-01-23-18-02-28/src/main/java/borsanova/Operatore.java:84-87 | there is no result exactly when no cached entry belongs to the company; otherwise it is the quantity of the first such entry in key order |
| Borsanova.PrimaPerAziendaUnica | progetto-7c9249e-2025-01-23-18-02-28/progetto-7c9249e-2025-01-23-18-02-28/src/main/java/borsanova/Operatore.java:84-87 | when every cached entry of the company is this listing's, the search by company name returns exactly the listing's own entry (TreeMap.get of its key) |
| Borsanova.InvestimentoAccumula | progetto-7c9249e-2025-01-23-18-02-28/progetto-7c9249e-2025-01-23-18-02-28/src/main/java/borsanova/Operatore.java:119-126 | for a trader holding the company on this exchange only, investi stores the listing's own cached quantity plus the shares bought when the listing is held, and just the shares bought otherwise |
| Borsanova.VerificaVendita | progetto-7c9249e-2025-01-23-18-02-28/progetto-7c9249e-2025-01-23-18-02-28/src/main/java/borsanova/Borsa.java:195-197 | a sale fails with NonTrovato when the company has no holding, and with AzioniInsufficienti only when this listing is held and the quantity exceeds the holding; otherwise quantity left + quantity sold = holding |
| Borsanova.ValoreTotaleNonNegativo | progetto-7c9249e-2025-01-23-18-02-28/progetto-7c9249e-2025-01-23-18-02-28/src/main/java/borsanova/Operatore.java:151-157 | with non-negative cached quantities the portfolio value is non-negative, and 0 for an empty cache |
| Borsanova.RisincronizzaFedele | progetto-7c9249e-2025-01-23-18-02-28/progetto-7c9249e-2025-01-23-18-02-28/src/main/java/borsanova/Borsa.java:181 | after resynchronisation the cache holds, for every listing of the exchange, the trader's positive ledger entry and nothing otherwise; entries of other exchanges are untouched |
| Borsanova.RisincronizzaIdempotente | progetto-7c9249e-2025-01-23-18-02-28/progetto-7c9249e-2025-01-23-18-02-28/src/main/java/borsanova/Borsa.java:201 | resynchronising twice gives the same holdings as resynchronising once |
| Borsanova.RisincronizzaOrdinata | progetto-7c9249e-2025-01-23-18-02-28/progetto-7c9249e-2025-01-23-18-02-28/src/main/java/borsanova/Borsa.java:181 | resynchronisation keeps the cache strictly sorted |
| Borsanova.CacheSpecchio | progetto-7c9249e-2025-01-23-18-02-28/progetto-7c9249e-2025-01-23-18-02-28/src/main/java/borsanova/Borsa.java:303-305 | when the trader's cache agrees with the listing's ledger (Allineato), possiedeAzione holds exactly when azioniDetenute is positive, and the amount quantita counts as sold to the trader is that positive entry |
| Borsanova.VenduteDalRegistro | progetto-7c9249e-2025-01-23-18-02-28/progetto-7c9249e-2025-01-23-18-02-28/src/main/java/borsanova/Borsa.java:319-325 | conservation: when every trader's cache agrees with the ledger, the shares quantita counts as sold equal Detenute, the sum of the positive ledger entries of the exchange's traders |
| Borsanova.DetenuteAggiorna | progetto-7c9249e-2025-01-23-18-02-28/progetto-7c9249e-2025-01-23-18-02-28/src/main/java/borsanova/Borsa.java:178 | writing a trader's ledger entry changes Detenute by the difference of the new and old positive parts when the trader is registered on the exchange, and leaves it unchanged otherwise |
| Borsanova.DetenuteInserisci | progetto-7c9249e-2025-01-23-18-02-28/progetto-7c9249e-2025-01-23-18-02-28/src/main/java/borsanova/Borsa.java:180 | adding a trader to the exchange's traders adds its positive ledger entry to Detenute |
| Borsanova.AcquistoDetenute | progetto-7c9249e-2025-01-23-18-02-28/progetto-7c9249e-2025-01-23-18-02-28/src/main/java/borsanova/Borsa.java:178-180 | a purchase of n shares by a trader who held none of the listing (ledger put of n, then the trader set add) raises Detenute by exactly n, so the quantity available drops by n |
| Borsanova.Azienda.constructor | progetto-7c9249e-2025-01-23-18-02-28/progetto-7c9249e-2025-01-23-18-02-28/src/main/java/borsanova/Azienda.java:45-48 | a new company has its name and no exchanges |
| Borsanova.Azienda.Of | progetto-7c9249e-2025-01-23-18-02-28/progetto-7c9249e-2025-01-23-18-02-28/src/main/java/borsanova/Azienda.java:31-38 | fails with the registry's error and leaves it unchanged, or records the name and returns a fresh company with no exchanges |
| Borsanova.Azienda.CompareTo | progetto-7c9249e-2025-01-23-18-02-28/progetto-7c9249e-2025-01-23-18-02-28/src/main/java/borsanova/Azienda.java:99-101 | 0 exactly for equal names, and antisymmetric |
| Borsanova.Azienda.QuotazioneInBorsa | progetto-7c9249e-2025-01-23-18-02-28/progetto-7c9249e-2025-01-23-18-02-28/src/main/java/borsanova/Azienda.java:61-68 | non-positive arguments fail and change nothing; an exchange already listed on is a silent no-op; otherwise the exchange joins borseQuotate first, so the exchange never refuses for authorisation; the listing is created if and only if the company was not yet listed there |
| Borsanova.Borsa.constructor | progetto-7c9249e-2025-01-23-18-02-28/progetto-7c9249e-2025-01-23-18-02-28/src/main/java/borsanova/Borsa.java:60-64 | a new exchange has no listings, no traders and no policy |
| Borsanova.Borsa.Of | progetto-7c9249e-2025-01-23-18-02-28/progetto-7c9249e-2025-01-23-18-02-28/src/main/java/borsanova/Borsa.java:47-54 | fails with the registry's error, or records the name and returns a fresh empty exchange |
| Borsanova.Borsa.ChiaviQuotateDistinte | progetto-7c9249e-2025-01-23-18-02-28/progetto-7c9249e-2025-01-23-18-02-28/src/main/java/borsanova/Borsa.java:328-331 | the listings of a valid exchange have pairwise distinct compareTo keys |
| Borsanova.Borsa.ImpostaPoliticaPrezzo | progetto-7c9249e-2025-01-23-18-02-28/progetto-7c9249e-2025-01-23-18-02-28/src/main/java/borsanova/Borsa.java:79-82 | the policy is replaced; listings and traders are unchanged |
| Borsanova.Borsa.QuotaAzienda | progetto-7c9249e-2025-01-23-18-02-28/progetto-7c9249e-2025-01-23-18-02-28/src/main/java/borsanova/Borsa.java:132-145 | non-positive arguments, an existing listing of the company, or an exchange missing from the company's borseQuotate each fail with their own error and change nothing; success occurs if and only if none of these applies, and then inserts exactly one fresh listing with the given price and quantity and an empty ledger |
| Borsanova.Borsa.CercaAzioneBorsa | progetto-7c9249e-2025-01-23-18-02-28/progetto-7c9249e-2025-01-23-18-02-28/src/main/java/borsanova/Borsa.java:154-160 | finds a listing if and only if the company is listed, and returns the first in order; otherwise fails with NonTrovato |
| Borsanova.Borsa.AggiungiOperatore | progetto-7c9249e-2025-01-23-18-02-28/progetto-7c9249e-2025-01-23-18-02-28/src/main/java/borsanova/Borsa.java:180 | operatoriBorsa becomes ConOperatore of the old set: unchanged when a trader of that name is present, otherwise the trader is inserted in order; listings and policy are unchanged |
| Borsanova.Borsa.ApplicaPoliticaVendita | progetto-7c9249e-2025-01-23-18-02-28/progetto-7c9249e-2025-01-23-18-02-28/src/main/java/borsanova/Borsa.java:98-102 | with a policy the price becomes the policy's sale price; without one it fails with PoliticaAssente and the price is unchanged; the ledger is never touched |
| Borsanova.Borsa.ApplicaPoliticaAcquisto | progetto-7c9249e-2025-01-23-18-02-28/progetto-7c9249e-2025-01-23-18-02-28/src/main/java/borsanova/Borsa.java:110-114 | the price becomes the policy's purchase price; the ledger is not touched |
| Borsanova.Borsa.Acquisto | progetto-7c9249e-2025-01-23-18-02-28/progetto-7c9249e-2025-01-23-18-02-28/src/main/java/borsanova/Borsa.java:170-182 | fails before any change (listing missing, or a guard of Verifica); on success: the budget drops by shares x old price and stays >= 0; the ledger entry is overwritten with the shares bought; the price is the policy's result fed the amount invested (unchanged without a policy); operatoriBorsa becomes ConOperatore of the old set and the buyer; the cache equals the resynchronised cache and shows the shares bought; only listings of that company may change |
| Borsanova.Borsa.CompletaAcquisto | progetto-7c9249e-2025-01-23-18-02-28/progetto-7c9249e-2025-01-23-18-02-28/src/main/java/borsanova/Borsa.java:177-181 | the effects of an accepted purchase of n shares, as listed for Borsa.Acquisto, including operatoriBorsa == ConOperatore(old operatoriBorsa, buyer) |
| Borsanova.Borsa.Vendita | progetto-7c9249e-2025-01-23-18-02-28/progetto-7c9249e-2025-01-23-18-02-28/src/main/java/borsanova/Borsa.java:192-202 | the exchange stays valid; the guards of VerificaVendita fail with budget, cache, ledger and price unchanged; otherwise the ledger entry becomes the quantity left; a non-positive proceeds amount then fails with the budget unchanged; otherwise the budget rises by quantity x old price; a missing policy then fails with the price and cache unchanged; otherwise the price is the policy's sale price and the cache is resynchronised |
| Borsanova.Borsa.CompletaVendita | progetto-7c9249e-2025-01-23-18-02-28/progetto-7c9249e-2025-01-23-18-02-28/src/main/java/borsanova/Borsa.java:197-201 | the effects of an accepted sale, step by step, as listed for Borsa.Vendita |
| Borsanova.Azione.constructor | progetto-7c9249e-2025-01-23-18-02-28/progetto-7c9249e-2025-01-23-18-02-28/src/main/java/borsanova/Borsa.java:265-272 | a new listing has the given company, exchange, price and quantity, and an empty ledger |
| Borsanova.Azione.NuovoValore | progetto-7c9249e-2025-01-23-18-02-28/progetto-7c9249e-2025-01-23-18-02-28/src/main/java/borsanova/Borsa.java:311-313 | the price becomes the new (positive) value and the ledger is unchanged |
| Borsanova.Azione.CompareTo | progetto-7c9249e-2025-01-23-18-02-28/progetto-7c9249e-2025-01-23-18-02-28/src/main/java/borsanova/Borsa.java:328-331 | the sign agrees with the listing order in both directions: 0 exactly for equal (exchange, company) names |
| Borsanova.Azione.Quantita | progetto-7c9249e-2025-01-23-18-02-28/progetto-7c9249e-2025-01-23-18-02-28/src/main/java/borsanova/Borsa.java:319-325 | the available quantity is the issued quantity minus Vendute, the holdings of the exchange's traders who hold this listing, so available + sold = issued; VenduteDalRegistro ties Vendute to the ledger |
| Borsanova.Operatore.constructor | progetto-7c9249e-2025-01-23-18-02-28/progetto-7c9249e-2025-01-23-18-02-28/src/main/java/borsanova/Operatore.java:53-57 | a new trader has budget 0 and an empty cache |
| Borsanova.Operatore.Of | progetto-7c9249e-2025-01-23-18-02-28/progetto-7c9249e-2025-01-23-18-02-28/src/main/java/borsanova/Operatore.java:41-47 | fails with the registry's error, or records the name and returns a fresh trader with budget 0 and an empty cache |
| Borsanova.Operatore.CompareTo | progetto-7c9249e-2025-01-23-18-02-28/progetto-7c9249e-2025-01-23-18-02-28/src/main/java/borsanova/Operatore.java:199-201 | 0 exactly for equal names, and antisymmetric |
| Borsanova.Operatore.MostraQuantitaAzione | progetto-7c9249e-2025-01-23-18-02-28/progetto-7c9249e-2025-01-23-18-02-28/src/main/java/borsanova/Operatore.java:82-88 | fails with NonTrovato exactly when no cached entry belongs to the company; otherwise returns the quantity of the first such entry, on whatever exchange |
| Borsanova.Operatore.PossiedeAzione | progetto-7c9249e-2025-01-23-18-02-28/progetto-7c9249e-2025-01-23-18-02-28/src/main/java/borsanova/Operatore.java:95-98 | true exactly when the listing's key is cached with a quantity > 0; then a holding of its company exists |
| Borsanova.Operatore.Investi | progetto-7c9249e-2025-01-23-18-02-28/progetto-7c9249e-2025-01-23-18-02-28/src/main/java/borsanova/Operatore.java:110-128 | fails before any change (budget, cache, trader set, and the listing's price and ledger) on the same guards as Borsa.acquisto; on success: the budget drops by shares x old price; the cache entry becomes the shares bought, added to the company's first cached quantity when the listing is held; a trader who did not hold the listing makes operatoriBorsa ConOperatore of the old set, a holder leaves it unchanged; the price follows the purchase policy fed the amount invested; the ledger is untouched |
| Borsanova.Operatore.CompletaInvestimento | progetto-7c9249e-2025-01-23-18-02-28/progetto-7c9249e-2025-01-23-18-02-28/src/main/java/borsanova/Operatore.java:117-127 | the effects of an accepted investment of n shares, as listed for Operatore.Investi, including the exact new trader set |
| Borsanova.Operatore.Vendi | progetto-7c9249e-2025-01-23-18-02-28/progetto-7c9249e-2025-01-23-18-02-28/src/main/java/borsanova/Operatore.java:138-145 | the guards of VerificaVendita fail with nothing changed; otherwise the cache entry becomes the quantity left, the budget rises by old price x quantity, and the price follows the sale policy when one is set; the ledger is untouched |
| Borsanova.Operatore.ControllaVendita | progetto-7c9249e-2025-01-23-18-02-28/progetto-7c9249e-2025-01-23-18-02-28/src/main/java/borsanova/Operatore.java:140-141 | the sale guard shared with Borsa.vendita changes nothing and its result is VerificaVendita of the company's first holding and of whether this listing is held: NonTrovato, AzioniInsufficienti or the quantity left |
| Borsanova.Operatore.CompletaVendi | progetto-7c9249e-2025-01-23-18-02-28/progetto-7c9249e-2025-01-23-18-02-28/src/main/java/borsanova/Operatore.java:142-144 | the effects of an accepted sale, as listed for Operatore.Vendi |
| Borsanova.Operatore.Memorizza | progetto-7c9249e-2025-01-23-18-02-28/progetto-7c9249e-2025-01-23-18-02-28/src/main/java/borsanova/Operatore.java:142 | TreeMap.put on the cache keeps it sorted and leaves the budget alone |
| Borsanova.Operatore.Deposita | progetto-7c9249e-2025-01-23-18-02-28/progetto-7c9249e-2025-01-23-18-02-28/src/main/java/borsanova/Operatore.java:172-175 | an amount <= 0 fails with the budget unchanged; otherwise the budget rises by exactly the amount; the cache is unchanged |
| Borsanova.Operatore.Preleva | progetto-7c9249e-2025-01-23-18-02-28/progetto-7c9249e-2025-01-23-18-02-28/src/main/java/borsanova/Operatore.java:182-185 | an amount above the budget fails with it unchanged; otherwise the budget falls by exactly the amount, and a non-negative withdrawal leaves it between 0 and its old value |
| Borsanova.Operatore.ValoreAzioni | progetto-7c9249e-2025-01-23-18-02-28/progetto-7c9249e-2025-01-23-18-02-28/src/main/java/borsanova/Operatore.java:151-157 | the loop computes the sum of live price x cached quantity over the cache (ValoreTotale) |
| Borsanova.Operatore.AggiornaAzioni | progetto-7c9249e-2025-01-23-18-02-28/progetto-7c9249e-2025-01-23-18-02-28/src/main/java/borsanova/Borsa.java:181 | the loop leaves the cache equal to the resynchronisation with the exchange's ledgers; it stays sorted and the budget is unchanged |

## Left out

- Java's 32-bit `int` arithmetic: budgets, prices, quantities and products of them are unbounded integers, so overflow and wrap-around are not modelled.
- Null arguments and the `Objects.requireNonNull` checks: Dafny references are never null. The one null the code dereferences on a normal path is a missing pricing policy, modelled as `PoliticaAssente`.
- The iterator accessors (`azioniQuotate()`, `borseQuotate()`, `elencoAzioni()`), the plain getters, and `equals`, `hashCode` and `toString`. The getters are field reads. `Borsa.equals` and `Operatore.equals` compare names, as the model's keys do. `Azienda.equals` (Azienda.java:91-96) compares the name with `obj.toString()`, which `Azienda` does not override, so it never holds between two companies. The core never relies on it: its sets are TreeSets ordered by `compareTo`, and `cercaAzioneBorsa` compares names.
- The process-wide static name registries: they are explicit sets passed to and returned from the factories.
- Ordine.Cmp: compares Unicode scalar values, where String.compareTo compares UTF-16 code units. The two agree on strings without supplementary characters.
- PoliticaPrezzo.Maiuscola: upper-cases only the ASCII letters, not the rest of Unicode.
- Nomi.IsBlank: covers the whitespace Character.isWhitespace lists, with no Unicode database behind it.
- Borsanova.Azione.constructor: takes a positive price and quantity by type. Its only caller, `QuotaAzienda`, checks them first, so the constructor's own exception is unreachable.
- Borsanova.Borsa.ApplicaPoliticaAcquisto: requires a policy. Both callers test for one first, so its null dereference cannot happen.
- Borsanova.Azione.Quantita: the conservation "available + held = issued" (VenduteDalRegistro) is proved only under the agreement of every trader's cache with the ledger (Allineato), which is no class invariant because the code breaks it. `Operatore.investi` and `Operatore.vendi` change the cache and never the ledger (Operatore.java:119-126, 140-143). `mostraQuantitaAzione` returns the first holding of the company on any exchange (Operatore.java:84-87), so a trader holding the company on two exchanges can be counted with the other exchange's quantity. `Borsa.acquisto` overwrites the ledger entry with the last purchase (Borsa.java:178), so after a second purchase of n2 shares by a holder of n1 the earlier n1 shares count as available again (quantita - n2 instead of quantita - n1 - n2). The model proves the effect of a purchase by a trader who held none of the listing (AcquistoDetenute) and of any ledger write (DetenuteAggiorna), not a global invariant across trades.
- Borsanova.Operatore.Valid: does not include the invariants `budget >= 0` and "cached quantities >= 0". The code does not maintain them (see the sale and withdrawal behaviour above), so the class predicate states only the cache order.
- The clients, the superseded snapshots and the `PoliticaPrezzo` interface are not part of this model.
