/** The package buttons of js/planejamento.js (`initPacoteButtons`): the
    `data-pacote` attribute picks the title shown to the visitor. */
module Packages {
  import opened Wrappers

  const DefaultTitle: string := "Pacote Personalizado"

  const Titles: map<string, string> := map[
    "amigos" := "Pacote para Amigos",
    "familia" := "Pacote para Família",
    "casais" := "Pacote para Casais"
  ]

  /** `pacotesMap[tipoPacote] || titulo`; a missing attribute (`null`) is
      not a key of the map. */
  function Title(key: Option<string>): (r: string)
    ensures r != ""
    ensures key.Some? && key.value in Titles ==> r == Titles[key.value]
    ensures r == DefaultTitle <==> key.None? || key.value !in Titles
  {
    if key.Some? && key.value in Titles then Titles[key.value] else DefaultTitle
  }

  /** Different packages get different titles. */
  lemma TitlesDistinct(a: string, b: string)
    requires a in Titles && b in Titles && a != b
    ensures Title(Some(a)) != Title(Some(b))
  {
  }

  lemma KnownTitles()
    ensures Title(Some("amigos")) == "Pacote para Amigos"
    ensures Title(Some("familia")) == "Pacote para Família"
    ensures Title(Some("casais")) == "Pacote para Casais"
    ensures Title(Some("solo")) == DefaultTitle && Title(None) == DefaultTitle
  {
  }
}
