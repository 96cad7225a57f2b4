/** The request validators of the backend's utility module. */
module Validators {
  import opened Text

  /** `validate_transaction_type`: only the two transaction kinds are accepted. */
  predicate ValidTransactionType(tipo: string) {
    tipo == "retirada" || tipo == "devolucao"
  }

  /** `validate_quantity`: a quantity must be strictly positive. */
  predicate ValidQuantity(quantidade: int) {
    quantidade > 0
  }

  /** `validate_stock_availability`: enough units are available. */
  predicate StockAvailable(available: int, requested: int) {
    available >= requested
  }

  /** `normalize_name`: outer whitespace stripped, then lower-cased. */
  function NormalizeName(name: string): string {
    Lower(Strip(name))
  }

  /** A normalised name is its own normal form. */
  lemma NormalizeNameIdempotent(name: string)
    ensures NormalizeName(NormalizeName(name)) == NormalizeName(name)
  {
    var t := Strip(name);
    LowerStripCommute(t);
    StripIdempotent(name);
    LowerIdempotent(t);
  }

  /** Names that differ only in case or in outer whitespace normalise to the
      same string. */
  lemma NormalizeNameCanonical(pre: string, name: string, post: string)
    requires AllSpace(pre) && AllSpace(post)
    ensures NormalizeName(Lower(name)) == NormalizeName(name)
    ensures NormalizeName(pre + name + post) == NormalizeName(name)
  {
    var t := Strip(name);
    StripIdempotent(name);
    LowerIdempotent(t);
    LowerStripCommute(name);
    StripIgnoresPadding(pre, name, post);
  }

  /** A normalised name is blank only when the original was. */
  lemma NormalizeNameBlank(name: string)
    ensures NormalizeName(name) == "" <==> AllSpace(name)
  {
    StripEmptyIffBlank(name);
  }
}
