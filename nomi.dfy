/** Names of companies, exchanges and traders, and the registries that keep
    them unique (the static sets Nomi_Usati_Aziende, ISTANZE and
    nomiUsatiOperatore, here an explicit value passed in and returned). */
module Nomi {
  import opened Esito

  /** Character.isWhitespace: the Unicode space separators other than the
      non-breaking ones, and the ASCII control characters listed in its
      documentation. */
  predicate IsWhitespace(c: char)
  {
    || c == ' ' || c == '\t' || c == '\n' || c == '\U{000B}' || c == '\U{000C}' || c == '\r'
    || ('\U{001C}' <= c <= '\U{001F}')
    || c == '\U{1680}' || ('\U{2000}' <= c <= '\U{2006}') || ('\U{2008}' <= c <= '\U{200A}')
    || c == '\U{2028}' || c == '\U{2029}' || c == '\U{205F}' || c == '\U{3000}'
  }

  /** String.isBlank: empty, or only whitespace. */
  predicate IsBlank(s: string)
  {
    s == [] || (IsWhitespace(s[0]) && IsBlank(s[1..]))
  }

  /** A name accepted by the factories `of`: never blank. */
  type Nome = s: string | !IsBlank(s) witness "x"

  lemma NomeNonVuoto(n: Nome)
    ensures |n| > 0
  {
  }

  /** The check and update every factory `of` performs on its registry:
      a blank name is refused, then a name already used is refused, and
      otherwise the name is recorded. */
  function Registra(usati: set<string>, nome: string): (r: Result<set<string>>)
    ensures r == Err(NomeVuoto) <==> IsBlank(nome)
    ensures r == Err(NomeInUso) <==> !IsBlank(nome) && nome in usati
    ensures r.Ok? ==> nome !in usati && r.value == usati + {nome}
  {
    if IsBlank(nome) then Err(NomeVuoto)
    else if nome in usati then Err(NomeInUso)
    else Ok(usati + {nome})
  }

  /** Registering the same name twice always fails the second time. */
  lemma RegistraDueVolte(usati: set<string>, nome: string)
    requires Registra(usati, nome).Ok?
    ensures Registra(Registra(usati, nome).value, nome) == Err(NomeInUso)
  {
  }
}
