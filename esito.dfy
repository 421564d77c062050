/** Outcomes of the engine's operations: a value or the kind of exception the
    Java code throws. */
module Esito {

  /** One case per distinct failure the exchange engine reports. */
  datatype Errore =
    | NomeVuoto                  // IllegalArgumentException: blank name
    | NomeInUso                  // IllegalArgumentException: name already used
    | ArgomentoNonValido         // IllegalArgumentException: non-positive amount, quantity or price
    | GiaQuotata                 // IllegalArgumentException: company already listed on this exchange
    | QuotazioneNonAutorizzata   // IllegalArgumentException: exchange missing from the company's borseQuotate
    | NonTrovato                 // NoSuchElementException: no listing or holding for that company
    | FondiInsufficienti         // IllegalArgumentException: investment above budget or below one share
    | AzioniInsufficienti        // IllegalArgumentException: not enough shares available or held
    | PoliticaAssente            // NullPointerException: no pricing policy set when vendita applies it

  datatype Option<+T> = None | Some(value: T)

  datatype Result<+T> = Ok(value: T) | Err(error: Errore)

  datatype Outcome = Pass | Fail(error: Errore)
}
