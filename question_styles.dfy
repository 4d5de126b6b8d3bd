/** The fixed catalog of ice-breaker question styles offered on the first screen. */
module QuestionStyles {

  /** One entry of the catalog; the icon is an opaque display handle, kept as text. */
  datatype QuestionStyle = QuestionStyle(name: string, description: string, icon: string)

  /** The catalog in display order. It is never changed. */
  const Catalog: seq<QuestionStyle> := [
    QuestionStyle("Introspective", "Deep, reflective questions about personal experiences and values", "\U{1F914}"),
    QuestionStyle("Light-hearted", "Fun, casual questions to create a relaxed atmosphere", "\U{1F60C}"),
    QuestionStyle("Thought-provoking", "Questions that spark interesting discussions and new perspectives", "\U{1F9E0}"),
    QuestionStyle("Funny", "Humorous questions to bring laughter and energy to the team", "\U{1F346}")
  ]

  /** The style names in display order. */
  function Names(): (names: seq<string>)
    ensures |names| == |Catalog|
    ensures forall i :: 0 <= i < |Catalog| ==> names[i] == Catalog[i].name
  {
    seq(|Catalog|, i requires 0 <= i < |Catalog| => Catalog[i].name)
  }

  /** The catalog lists exactly four styles, in this order; every name is non-empty
      (so choosing one is never mistaken for "no style") and no two names are equal
      (so a name identifies its style). */
  lemma CatalogNames()
    ensures Names() == ["Introspective", "Light-hearted", "Thought-provoking", "Funny"]
    ensures forall i :: 0 <= i < |Catalog| ==> Catalog[i].name != ""
    ensures forall i, j :: 0 <= i < j < |Catalog| ==> Catalog[i].name != Catalog[j].name
  {
    var n := Names();
    assert n[0][0] == 'I' && n[1][0] == 'L' && n[2][0] == 'T' && n[3][0] == 'F';
  }

  /** A chosen catalog name is never the empty "no style" value. */
  lemma CatalogNameNonEmpty(name: string)
    requires name in Names()
    ensures name != ""
  {
    CatalogNames();
  }
}
