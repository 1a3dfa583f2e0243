/**
 * The client's view model of a herb (`Osumlik`) and the mapping from the record the
 * listing and search endpoints return. Both home pages map records the same way
 * except for the category constant and the Latin-name field.
 */
module HerbRecord {
  import opened Wrappers

  /** A herb record as the API returns it; every text field may be missing. */
  datatype ApiHerb = ApiHerb(
    id: int,
    name: string,
    nameLatin: Option<string>,
    character: Option<string>,
    livingSpecification: Option<string>,
    naturalSource: Option<string>,
    usage: Option<string>,
    chemicalComposition: Option<string>,
    rawMaterial: Option<string>,
    createdAt: string,
    updatedAt: string,
    isDeleted: bool,
    deletedAt: Option<string>,
    photo: Option<string>,
    photoUrl: Option<string>)

  /** The view model: the record's own fields plus the legacy Turkmen display fields. */
  datatype Osumlik = Osumlik(
    id: int,
    name: string,
    nameLatin: Option<string>,
    character: string,
    livingSpecification: string,
    naturalSource: string,
    usage: string,
    chemicalComposition: string,
    rawMaterial: string,
    createdAt: string,
    updatedAt: string,
    isDeleted: bool,
    deletedAt: Option<string>,
    photo: Option<string>,
    photoUrl: Option<string>,
    ady: string,
    hasiyeti: string,
    yasayysAyratynlygy: string,
    yayraway: string,
    tegigy: string,
    gory: string,
    cigMaly: string,
    himikiDuzumi: string,
    peydalyNys: string,
    suraty: string,
    kategoriya: string)

  /** Which of the two mappings is applied: the current home page's listing mapping, or
      the mapping of search hits (which the older home page also uses for its listing). */
  datatype Mapping = Listing | SearchHit

  const Unknown: string := "Mälim däl"
  const PlantFamily: string := "Plant Family"
  const PlantGenus: string := "Plant Genus"
  const PlantEmoji: string := "🌿"
  const ListingCategory: string := "Tükmenistanyň Derman ösümligi"
  const SearchCategory: string := "Derman ösümligi"

  function CategoryOf(m: Mapping): string {
    match m
    case Listing => ListingCategory
    case SearchHit => SearchCategory
  }

  /** JavaScript truthiness of an optional string: present and not `''`. */
  predicate Truthy(v: Option<string>) {
    v.Some? && v.value != ""
  }

  /** `v || d`. */
  function OrElse(v: Option<string>, d: string): string {
    if Truthy(v) then v.value else d
  }

  /** `v || null`. */
  function OrNull(v: Option<string>): Option<string> {
    if Truthy(v) then v else None
  }

  /** Maps one API record onto the view model. */
  function Normalise(h: ApiHerb, m: Mapping): Osumlik {
    Osumlik(
      id := h.id,
      name := h.name,
      nameLatin := if m == Listing then Some(OrElse(h.nameLatin, "")) else None,
      character := OrElse(h.character, ""),
      livingSpecification := OrElse(h.livingSpecification, ""),
      naturalSource := OrElse(h.naturalSource, ""),
      usage := OrElse(h.usage, ""),
      chemicalComposition := OrElse(h.chemicalComposition, ""),
      rawMaterial := OrElse(h.rawMaterial, ""),
      createdAt := h.createdAt,
      updatedAt := h.updatedAt,
      isDeleted := h.isDeleted,
      deletedAt := h.deletedAt,
      photo := OrNull(h.photo),
      photoUrl := OrNull(h.photoUrl),
      ady := h.name,
      hasiyeti := OrElse(h.character, Unknown),
      yasayysAyratynlygy := OrElse(h.livingSpecification, Unknown),
      yayraway := OrElse(h.naturalSource, Unknown),
      tegigy := PlantFamily,
      gory := PlantGenus,
      cigMaly := OrElse(h.rawMaterial, Unknown),
      himikiDuzumi := OrElse(h.chemicalComposition, Unknown),
      peydalyNys := OrElse(h.usage, Unknown),
      suraty := PlantEmoji,
      kategoriya := CategoryOf(m))
  }

  /** `results.map(...)`. */
  function NormaliseAll(hs: seq<ApiHerb>, m: Mapping): (r: seq<Osumlik>)
    ensures |r| == |hs|
    ensures forall i :: 0 <= i < |hs| ==> r[i] == Normalise(hs[i], m)
  {
    seq(|hs|, i requires 0 <= i < |hs| => Normalise(hs[i], m))
  }

  /** A legacy display field shows its primary field, or `Unknown` when that is empty. */
  predicate ShowsOrUnknown(primary: string, legacy: string) {
    legacy == if primary == "" then Unknown else primary
  }

  /** What every mapped record looks like, whatever the record it came from. */
  predicate WellFormed(o: Osumlik) {
    && o.ady == o.name
    && ShowsOrUnknown(o.character, o.hasiyeti)
    && ShowsOrUnknown(o.livingSpecification, o.yasayysAyratynlygy)
    && ShowsOrUnknown(o.naturalSource, o.yayraway)
    && ShowsOrUnknown(o.rawMaterial, o.cigMaly)
    && ShowsOrUnknown(o.chemicalComposition, o.himikiDuzumi)
    && ShowsOrUnknown(o.usage, o.peydalyNys)
    && o.tegigy == PlantFamily && o.gory == PlantGenus && o.suraty == PlantEmoji
    && (o.photo.Some? ==> o.photo.value != "")
    && (o.photoUrl.Some? ==> o.photoUrl.value != "")
  }

  /** A present, non-empty field is copied; a missing or empty one becomes `''` in the
      primary field and `Unknown` in the legacy field. The name is copied into `ady`,
      the family, genus, picture and category are constants. */
  lemma NormaliseFields(h: ApiHerb, m: Mapping)
    ensures var o := Normalise(h, m);
      && o.id == h.id && o.name == h.name && o.ady == h.name
      && (Truthy(h.character) ==> o.character == o.hasiyeti == h.character.value)
      && (!Truthy(h.character) ==> o.character == "" && o.hasiyeti == Unknown)
      && (Truthy(h.livingSpecification) ==> o.livingSpecification == o.yasayysAyratynlygy == h.livingSpecification.value)
      && (!Truthy(h.livingSpecification) ==> o.livingSpecification == "" && o.yasayysAyratynlygy == Unknown)
      && (Truthy(h.naturalSource) ==> o.naturalSource == o.yayraway == h.naturalSource.value)
      && (!Truthy(h.naturalSource) ==> o.naturalSource == "" && o.yayraway == Unknown)
      && (Truthy(h.usage) ==> o.usage == o.peydalyNys == h.usage.value)
      && (!Truthy(h.usage) ==> o.usage == "" && o.peydalyNys == Unknown)
      && (Truthy(h.chemicalComposition) ==> o.chemicalComposition == o.himikiDuzumi == h.chemicalComposition.value)
      && (!Truthy(h.chemicalComposition) ==> o.chemicalComposition == "" && o.himikiDuzumi == Unknown)
      && (Truthy(h.rawMaterial) ==> o.rawMaterial == o.cigMaly == h.rawMaterial.value)
      && (!Truthy(h.rawMaterial) ==> o.rawMaterial == "" && o.cigMaly == Unknown)
      && (o.photo.Some? <==> Truthy(h.photo)) && (o.photoUrl.Some? <==> Truthy(h.photoUrl))
      && o.tegigy == PlantFamily && o.gory == PlantGenus && o.suraty == PlantEmoji
      && o.kategoriya == CategoryOf(m)
      && WellFormed(o)
  {
  }

  /** The listing mapping and the search mapping agree on every field except the category
      and the Latin name, which only the listing mapping sets. */
  lemma MappingsDifferOnlyInCategory(h: ApiHerb)
    ensures Normalise(h, Listing).(nameLatin := None, kategoriya := SearchCategory) == Normalise(h, SearchHit)
    ensures Normalise(h, Listing).nameLatin == Some(OrElse(h.nameLatin, ""))
    ensures Normalise(h, SearchHit).nameLatin == None
  {
  }
}
