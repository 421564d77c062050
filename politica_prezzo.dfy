/**
 * The pricing policies an exchange may apply after each trade. Every policy
 * is a pure rule from the listing's current unit price (and, depending on the
 * policy, the traded count and the initials of the company and exchange
 * names) to the new unit price.
 */
module PoliticaPrezzo {

  /** One case per implementation of the PoliticaPrezzo interface, holding
      the parameter its constructor stores. */
  datatype Politica =
    | DecrementoCostante(decremento: nat)
    | IncrementoCostante(incremento: nat)
    | VariazioneCostante(variazione: nat)
    | Soglia(soglia: nat)
    | Vocali(lettera: char)

  function Abs(x: int): (r: nat)
    ensures r == x || r == -x
  {
    if x < 0 then -x else x
  }

  /** new DecrementoCostante(d): the decrement is stored as |d|. */
  function NuovoDecrementoCostante(decremento: int): (p: Politica)
    ensures p.DecrementoCostante?
    ensures p.decremento == decremento || p.decremento == -decremento
  {
    DecrementoCostante(Abs(decremento))
  }

  /** new IncrementoCostante(i): the increment is stored as |i|. */
  function NuovoIncrementoCostante(incremento: int): (p: Politica)
    ensures p.IncrementoCostante?
    ensures p.incremento == incremento || p.incremento == -incremento
  {
    IncrementoCostante(Abs(incremento))
  }

  /** new VariazioneCostante(v): stored as given, so the invariant
      variazione >= 0 is the caller's obligation. */
  function NuovaVariazioneCostante(variazione: int): (p: Politica)
    requires variazione >= 0
    ensures p.VariazioneCostante? && p.variazione as int == variazione
  {
    VariazioneCostante(variazione)
  }

  /** new Soglia(s): the threshold is stored as |s|. */
  function NuovaSoglia(soglia: int): (p: Politica)
    ensures p.Soglia?
    ensures p.soglia == soglia || p.soglia == -soglia
  {
    Soglia(Abs(soglia))
  }

  /** Java's `v / 2`, which truncates toward zero. */
  function Dimezza(v: int): (r: int)
    ensures v >= 0 ==> 0 <= 2 * r <= v < 2 * r + 2
    ensures v < 0 ==> v <= 2 * r < v + 2 && r <= 0
  {
    if v >= 0 then v / 2 else -((-v) / 2)
  }

  /** Character.toUpperCase on the ASCII letters; every other character is
      returned unchanged. */
  function Maiuscola(c: char): char
  {
    if 'a' <= c <= 'z' then (c as int - 32) as char else c
  }

  predicate VocaleMinuscola(c: char)
  {
    c == 'a' || c == 'e' || c == 'i' || c == 'o' || c == 'u'
  }

  predicate VocaleMaiuscola(c: char)
  {
    c == 'A' || c == 'E' || c == 'I' || c == 'O' || c == 'U'
  }

  /** The two conditions Vocali tests, in the order it tests them: first
      `lettera` and the lower-case vowels, then toUpperCase(lettera) and the
      upper-case vowels, on the initials of the company and exchange names. */
  predicate Innesco(lettera: char, inizialeAzienda: char, inizialeBorsa: char)
  {
    || (inizialeAzienda == lettera || VocaleMinuscola(inizialeAzienda)
        || inizialeBorsa == lettera || VocaleMinuscola(inizialeBorsa))
    || (inizialeBorsa == Maiuscola(lettera) || VocaleMaiuscola(inizialeBorsa)
        || inizialeAzienda == Maiuscola(lettera) || VocaleMaiuscola(inizialeAzienda))
  }

  /** The initials that make Vocali(lettera) react. */
  function Iniziali(lettera: char): set<char>
  {
    {lettera, Maiuscola(lettera), 'a', 'e', 'i', 'o', 'u', 'A', 'E', 'I', 'O', 'U'}
  }

  /** Vocali's two tests together: either name starts with `lettera`, with
      its upper case, or with a vowel of either case. */
  lemma InnescoIniziali(lettera: char, inizialeAzienda: char, inizialeBorsa: char)
    ensures Innesco(lettera, inizialeAzienda, inizialeBorsa)
        <==> inizialeAzienda in Iniziali(lettera) || inizialeBorsa in Iniziali(lettera)
  {
  }

  /** The new unit price after a sale of `numeroAzioni` shares at `valore`
      (the `vendita` of each policy). A policy that leaves the price alone
      returns `valore`. */
  function Vendita(p: Politica, valore: int, numeroAzioni: int, inizialeAzienda: char, inizialeBorsa: char): (r: int)
    ensures valore >= 1 ==> 1 <= r <= valore
  {
    match p
    case DecrementoCostante(k) => if valore - k > 0 then valore - k else 1
    case IncrementoCostante(_) => valore
    case VariazioneCostante(k) => if valore - k > 0 then valore - k else 1
    case Soglia(s) =>
      if numeroAzioni > s && Dimezza(valore) >= 1 then Dimezza(valore)
      else if Dimezza(valore) < 1 then 1
      else valore
    case Vocali(l) =>
      if Innesco(l, inizialeAzienda, inizialeBorsa) then
        (if 1 >= Dimezza(valore) then 1 else Dimezza(valore))
      else valore
  }

  /** The new unit price after a purchase reported as `numeroAzioni` at
      `valore` (the `acquisto` of each policy). */
  function Acquisto(p: Politica, valore: int, numeroAzioni: int, inizialeAzienda: char, inizialeBorsa: char): (r: int)
    ensures valore >= 0 ==> r >= valore
  {
    match p
    case DecrementoCostante(_) => valore
    case IncrementoCostante(k) => valore + k
    case VariazioneCostante(k) => valore + k
    case Soglia(s) => if numeroAzioni > s then valore * 2 else valore
    case Vocali(l) => if Innesco(l, inizialeAzienda, inizialeBorsa) then valore * 2 else valore
  }

  /** DecrementoCostante: a sale lowers the price by the decrement, never
      below 1; a purchase leaves it unchanged. */
  lemma DecrementoCostanteRegola(k: nat, valore: int, n: int, a: char, b: char)
    ensures Vendita(DecrementoCostante(k), valore, n, a, b) == if valore - k >= 1 then valore - k else 1
    ensures Acquisto(DecrementoCostante(k), valore, n, a, b) == valore
  {
  }

  /** IncrementoCostante: a purchase raises the price by exactly the
      increment; a sale leaves it unchanged. */
  lemma IncrementoCostanteRegola(k: nat, valore: int, n: int, a: char, b: char)
    ensures Acquisto(IncrementoCostante(k), valore, n, a, b) - valore == k
    ensures Vendita(IncrementoCostante(k), valore, n, a, b) == valore
  {
  }

  /** VariazioneCostante: a purchase followed by a sale restores any price
      of at least 1. */
  lemma VariazioneCostanteAndataRitorno(k: nat, valore: int, n: int, m: int, a: char, b: char)
    requires valore >= 1
    ensures Vendita(VariazioneCostante(k), Acquisto(VariazioneCostante(k), valore, n, a, b), m, a, b) == valore
  {
  }

  /** VariazioneCostante: the sale moves the price down by the step, with a
      floor of 1, and the purchase moves it up by the same step. */
  lemma VariazioneCostanteRegola(k: nat, valore: int, n: int, a: char, b: char)
    ensures Vendita(VariazioneCostante(k), valore, n, a, b) == if valore - k >= 1 then valore - k else 1
    ensures Acquisto(VariazioneCostante(k), valore, n, a, b) == valore + k
  {
  }

  /** Soglia: a purchase doubles the price exactly when the traded count
      exceeds the threshold. */
  lemma SogliaAcquisto(s: nat, valore: int, n: int, a: char, b: char)
    requires valore >= 1
    ensures Acquisto(Soglia(s), valore, n, a, b) == 2 * valore <==> n > s
    ensures n <= s ==> Acquisto(Soglia(s), valore, n, a, b) == valore
  {
  }

  /** Soglia: a sale above the threshold halves (rounding down) any price
      of at least 2; a price of 1 stays 1; at or below the threshold the
      price is unchanged. */
  lemma SogliaVendita(s: nat, valore: int, n: int, a: char, b: char)
    requires valore >= 1
    ensures n > s && valore >= 2 ==> Vendita(Soglia(s), valore, n, a, b) == valore / 2
    ensures valore == 1 ==> Vendita(Soglia(s), valore, n, a, b) == 1
    ensures n <= s ==> Vendita(Soglia(s), valore, n, a, b) == valore
  {
  }

  /** Vocali: with the trigger a purchase doubles the price once (both tests
      use the saved current price) and a sale halves it, never below 1;
      without it neither changes the price. */
  lemma VocaliRegola(l: char, valore: int, n: int, a: char, b: char)
    requires valore >= 1
    ensures Innesco(l, a, b) ==> Acquisto(Vocali(l), valore, n, a, b) == 2 * valore
    ensures Innesco(l, a, b) ==> Vendita(Vocali(l), valore, n, a, b) == if valore >= 2 then valore / 2 else 1
    ensures !Innesco(l, a, b) ==> Acquisto(Vocali(l), valore, n, a, b) == valore
    ensures !Innesco(l, a, b) ==> Vendita(Vocali(l), valore, n, a, b) == valore
  {
  }
}
