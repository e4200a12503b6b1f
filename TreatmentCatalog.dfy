/** The treatment-code tables and lookups of `src/utils/treatmentCatalog.ts`. */
module TreatmentCatalog {
  import opened Wrappers

  /** A catalog entry: a treatment code and its full description. */
  datatype TreatmentCategory = TreatmentCategory(id: string, description: string)

  /** `TREATMENT_CATEGORIES`, in the source's order. */
  const TreatmentCategories: seq<TreatmentCategory> := [
    TreatmentCategory("#N/A", "Productos Dentales"),
    TreatmentCategory("END", "Tratamiento / Atención de Endodoncia"),
    TreatmentCategory("EST", "Estética Dental"),
    TreatmentCategory("EXO", "Tratamiento / Atención de Exodoncia"),
    TreatmentCategory("EXQ", "Tratamiento / Atención de Exodoncia Quirúrgica"),
    TreatmentCategory("IMG", "Imagenología"),
    TreatmentCategory("IMP", "Tratamiento / Atención de Implantes"),
    TreatmentCategory("INT", "Tratamiento / Atención de Odontología Integral"),
    TreatmentCategory("ODG", "Odontología General"),
    TreatmentCategory("ODP", "Odontopediatría"),
    TreatmentCategory("ODQ", "Tratamiento / Atención de Odontología Quirúrgica"),
    TreatmentCategory("OTD", "Ortodoncia"),
    TreatmentCategory("OTP", "Tratamiento / Atención de Ortopedia"),
    TreatmentCategory("PER", "Periodoncia"),
    TreatmentCategory("PRD", "Tratamiento / Atención de Prostodoncia"),
    TreatmentCategory("PRI", "Consulta de Primera Vez"),
    TreatmentCategory("PRO", "Prótesis"),
    TreatmentCategory("PUL", "Tratamiento / Atención de Problemas Pulpares"),
    TreatmentCategory("RES", "Restauraciones"),
    TreatmentCategory("DUD", "Aclaración de Dudas sobre Tratamiento Dental"),
    TreatmentCategory("RTR", "Reinicio de Tratamiento"),
    TreatmentCategory("NCA", "Sin Categoría")
  ]

  /** `TREATMENT_DESCRIPTIONS`: the short description of each code, for display. */
  const TreatmentDescriptions: map<string, string> := map[
    "#N/A" := "Productos Dentales",
    "END" := "Endodoncia",
    "EST" := "Estética Dental",
    "EXO" := "Exodoncia",
    "EXQ" := "Exodoncia Quirúrgica",
    "IMG" := "Imagenología",
    "IMP" := "Implantes",
    "INT" := "Odontología Integral",
    "ODG" := "Odontología General",
    "ODP" := "Odontopediatría",
    "ODQ" := "Odontología Quirúrgica",
    "OTD" := "Ortodoncia",
    "OTP" := "Ortopedia",
    "PER" := "Periodoncia",
    "PRD" := "Prostodoncia",
    "PRI" := "Primera Vez",
    "PRO" := "Prótesis",
    "PUL" := "Problemas Pulpares",
    "RES" := "Restauraciones",
    "DUD" := "Dudas/Consultas",
    "RTR" := "Reinicio de Tratamiento",
    "NCA" := "Sin Categoría"
  ]

  /** `getTreatmentDescription`: the short description of a known code, the code itself otherwise. */
  function GetTreatmentDescription(code: string): (r: string)
    ensures code in TreatmentDescriptions ==> r == TreatmentDescriptions[code]
    ensures code !in TreatmentDescriptions ==> r == code
  {
    if code in TreatmentDescriptions && TreatmentDescriptions[code] != "" then TreatmentDescriptions[code]
    else code
  }

  /** `Array.prototype.find` on the catalog: the position of the first entry with this code. */
  function FindCategory(categories: seq<TreatmentCategory>, code: string): (i: Option<nat>)
    ensures i.Some? ==>
      && i.value < |categories| && categories[i.value].id == code
      && forall j :: 0 <= j < i.value ==> categories[j].id != code
    ensures i.None? ==> forall j :: 0 <= j < |categories| ==> categories[j].id != code
    decreases |categories|
  {
    if categories == [] then None
    else if categories[0].id == code then Some(0)
    else match FindCategory(categories[1..], code)
      case None => None
      case Some(k) => Some(k + 1)
  }

  /**
   * `getTreatmentFullDescription`: the full description of the first catalog
   * entry with this code, the code itself when there is none.
   */
  function GetTreatmentFullDescription(code: string): (r: string)
    ensures forall j :: 0 <= j < |TreatmentCategories| && TreatmentCategories[j].id == code ==>
      r == TreatmentCategories[j].description
    ensures (forall j :: 0 <= j < |TreatmentCategories| ==> TreatmentCategories[j].id != code) ==> r == code
  {
    CatalogIdsDistinct();
    CatalogDescriptionsNonEmpty();
    match FindCategory(TreatmentCategories, code)
    case None => code
    case Some(i) =>
      FoundIsOnly(TreatmentCategories, code, i);
      var description := TreatmentCategories[i].description;
      if description != "" then description else code
  }

  /** Among entries with distinct codes, the one found is the only one with that code. */
  lemma FoundIsOnly(categories: seq<TreatmentCategory>, code: string, i: nat)
    requires forall a, b :: 0 <= a < b < |categories| ==> categories[a].id != categories[b].id
    requires FindCategory(categories, code) == Some(i)
    ensures forall j :: 0 <= j < |categories| && categories[j].id == code ==> j == i
  {
  }

  /** `isValidTreatmentCode`: some catalog entry has this code. */
  predicate IsValidTreatmentCode(code: string)
    ensures IsValidTreatmentCode(code) <==> FindCategory(TreatmentCategories, code).Some?
  {
    exists category :: category in TreatmentCategories && category.id == code
  }

  /** A code outside the catalog is its own description, short and full. */
  lemma UnknownCodeDescribesItself(code: string)
    requires !IsValidTreatmentCode(code)
    ensures GetTreatmentFullDescription(code) == code
    ensures GetTreatmentDescription(code) == code
  {
    NotInCatalog(TreatmentCategories, code);
    DescriptionKeysMatchCatalog();
  }

  lemma NotInCatalog(categories: seq<TreatmentCategory>, code: string)
    requires !exists category :: category in categories && category.id == code
    ensures forall j :: 0 <= j < |categories| ==> categories[j].id != code
  {
  }

  /** The codes of the catalog are pairwise distinct. */
  lemma CatalogIdsDistinct()
    ensures forall i, j :: 0 <= i < j < |TreatmentCategories| ==>
      TreatmentCategories[i].id != TreatmentCategories[j].id
  {
  }

  lemma CatalogDescriptionsNonEmpty()
    ensures forall i :: 0 <= i < |TreatmentCategories| ==> TreatmentCategories[i].description != ""
  {
  }

  /** Every catalog code has a short description. */
  lemma CatalogCodesDescribed()
    ensures forall j :: 0 <= j < |TreatmentCategories| ==> TreatmentCategories[j].id in TreatmentDescriptions
  {
  }

  /** Every code with a short description is in the catalog. */
  lemma DescribedCodesInCatalog()
    ensures forall code :: code in TreatmentDescriptions ==> IsValidTreatmentCode(code)
  {
    forall code | code in TreatmentDescriptions
      ensures IsValidTreatmentCode(code)
    {
      var j := CodePosition(code);
      assert TreatmentCategories[j] in TreatmentCategories;
    }
  }

  /** Where a described code sits in the catalog. */
  function CodePosition(code: string): (j: nat)
    requires code in TreatmentDescriptions
    ensures j < |TreatmentCategories| && TreatmentCategories[j].id == code
  {
    match code
    case "#N/A" => 0
    case "END" => 1
    case "EST" => 2
    case "EXO" => 3
    case "EXQ" => 4
    case "IMG" => 5
    case "IMP" => 6
    case "INT" => 7
    case "ODG" => 8
    case "ODP" => 9
    case "ODQ" => 10
    case "OTD" => 11
    case "OTP" => 12
    case "PER" => 13
    case "PRD" => 14
    case "PRI" => 15
    case "PRO" => 16
    case "PUL" => 17
    case "RES" => 18
    case "DUD" => 19
    case "RTR" => 20
    case _ => 21
  }

  /** The short-description table has exactly the catalog's codes as keys. */
  lemma DescriptionKeysMatchCatalog()
    ensures forall code :: code in TreatmentDescriptions <==> IsValidTreatmentCode(code)
  {
    CatalogCodesDescribed();
    DescribedCodesInCatalog();
    forall code | IsValidTreatmentCode(code)
      ensures code in TreatmentDescriptions
    {
      var c :| c in TreatmentCategories && c.id == code;
      InCatalogAt(c);
    }
  }

  lemma InCatalogAt(c: TreatmentCategory)
    requires c in TreatmentCategories
    ensures exists j :: 0 <= j < |TreatmentCategories| && TreatmentCategories[j] == c
  {
  }
}
