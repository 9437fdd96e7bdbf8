/** The typed memory store: a variable table from name to declared type and current value. */
module Memory {

  import opened JsValues

  datatype Entry = Entry(typ: string, value: Value)

  const Entier: string := "Entier"
  const Reel: string := "Réel"
  const Booleen: string := "Booléen"
  const Caractere: string := "Caractère"
  const Chaine: string := "Chaîne"
  const Tableau: string := "Tableau"

  /** The data types a declaration can name. */
  const DataTypes: seq<string> := [Entier, Reel, Booleen, Caractere, Chaine, Tableau]

  /** `TYPE_DEFAULTS[dataType]`: the value a fresh declaration holds; a type outside the table
      looks up nothing, which is undefined. */
  function TypeDefault(dataType: string): (v: Value)
    ensures dataType !in DataTypes <==> v.Undef?
    ensures dataType == Entier || dataType == Reel <==> v == Num(0)
    ensures dataType == Booleen <==> v == Bool(false)
    ensures dataType == Caractere || dataType == Chaine <==> v == Str("")
    ensures dataType == Tableau <==> v == EmptyArray
  {
    if dataType == Entier || dataType == Reel then Num(0)
    else if dataType == Booleen then Bool(false)
    else if dataType == Caractere || dataType == Chaine then Str("")
    else if dataType == Tableau then EmptyArray
    else Undef
  }
}
