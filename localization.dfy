/**
 * `getLocalizedName` and `sortByLocalizedName` of the network module: the
 * designation in the reader's language, falling back to the other
 * languages and then to the plain name.
 */
module NetworkLocalization {
  import opened Js
  import opened ListOps

  /** The multilingual fields; each may be absent. */
  datatype Multilingual = Multilingual(ar: Option<string>, en: Option<string>, fr: Option<string>, name: Option<string>)

  /** The fields in the order they are tried for `language`. */
  function FallbackOrder(e: Multilingual, language: string): (c: seq<Option<string>>)
    ensures |c| == 4 && c[3] == e.name
    ensures {c[0], c[1], c[2]} == {e.ar, e.en, e.fr}
  {
    if language == "ar" then [e.ar, e.en, e.fr, e.name]
    else if language == "fr" then [e.fr, e.en, e.ar, e.name]
    else [e.en, e.fr, e.ar, e.name]
  }

  /** `getLocalizedName(entity, language)`; `None` is a missing entity. */
  function LocalizedName(entity: Option<Multilingual>, language: string): (r: string)
    ensures entity.None? ==> r == ""
  {
    if entity.None? then "" else FirstPresent(FallbackOrder(entity.value, language))
  }

  /** The name is one of the entity's own fields, or empty when all of them are absent or empty. */
  lemma LocalizedNameIsAField(e: Multilingual, language: string)
    ensures var r := LocalizedName(Some(e), language);
      r == "" || Some(r) in {e.ar, e.en, e.fr, e.name}
    ensures LocalizedName(Some(e), language) == "" <==> !Present(e.ar) && !Present(e.en) && !Present(e.fr) && !Present(e.name)
  {
    var c := FallbackOrder(e, language);
    var r := LocalizedName(Some(e), language);
    FirstPresentSpec(c);
    if r != "" {
      var i :| 0 <= i < |c| && c[i] == Some(r) && forall j :: 0 <= j < i ==> !Present(c[j]);
      assert c[i] in {c[0], c[1], c[2]} || c[i] == c[3];
    }
    assert forall x :: x in c <==> x in {e.ar, e.en, e.fr, e.name} by {
      assert c == [c[0], c[1], c[2], c[3]];
    }
  }

  /** A non-empty designation in the reader's language wins; English is the preference for any other language. */
  lemma PreferredLanguageWins(e: Multilingual, language: string)
    ensures language == "ar" && Present(e.ar) ==> LocalizedName(Some(e), language) == e.ar.value
    ensures language == "fr" && Present(e.fr) ==> LocalizedName(Some(e), language) == e.fr.value
    ensures language != "ar" && language != "fr" && Present(e.en) ==> LocalizedName(Some(e), language) == e.en.value
  {
  }

  /** The plain name is used only when no designation is there, whatever the language. */
  lemma NameIsLastResort(e: Multilingual, language: string)
    ensures !Present(e.ar) && !Present(e.en) && !Present(e.fr) && e.name.Some? ==> LocalizedName(Some(e), language) == e.name.value
    ensures Present(e.ar) || Present(e.en) || Present(e.fr) ==> Some(LocalizedName(Some(e), language)) in {e.ar, e.en, e.fr}
  {
    var c := FallbackOrder(e, language);
    var r := LocalizedName(Some(e), language);
    LocalizedNameIsAField(e, language);
    FirstPresentSpec(c);
    if r != "" {
      var i :| 0 <= i < |c| && c[i] == Some(r) && forall j :: 0 <= j < i ==> !Present(c[j]);
      if i == 3 {
        assert !Present(c[0]) && !Present(c[1]) && !Present(c[2]);
      } else {
        assert c[i] in {c[0], c[1], c[2]};
      }
    }
  }

  /** A regional tag such as `fr-FR` is not French here: it takes the English-first order. */
  lemma RegionalTagFallsBackToEnglish(e: Multilingual)
    ensures LocalizedName(Some(e), "fr-FR") == LocalizedName(Some(e), "en")
  {
  }

  /** The key each entity is sorted by: its lowercased localised name. */
  function SortKey<T>(view: T -> Multilingual, language: string): T -> string {
    (x: T) => ToLower(LocalizedName(Some(view(x)), language))
  }

  /**
   * `sortByLocalizedName(entities, language)`: a sorted copy; `view` reads an
   * entity's multilingual fields and `compare` is the string comparison the
   * runtime uses for `localeCompare`.
   */
  function SortByLocalizedName<T>(entities: seq<T>, view: T -> Multilingual, language: string, compare: (string, string) -> int): (r: seq<T>)
    ensures multiset(r) == multiset(entities)
  {
    Sort(entities, On(compare, SortKey(view, language)))
  }

  /** The copy holds the same entities and is ordered by lowercased localised name. */
  lemma SortByLocalizedNameSpec<T(!new)>(entities: seq<T>, view: T -> Multilingual, language: string, compare: (string, string) -> int)
    requires Consistent(compare)
    ensures var r := SortByLocalizedName(entities, view, language, compare);
      && multiset(r) == multiset(entities)
      && forall i, j :: 0 <= i < j < |r| ==>
           compare(ToLower(LocalizedName(Some(view(r[i])), language)), ToLower(LocalizedName(Some(view(r[j])), language))) <= 0
  {
    var key := SortKey(view, language);
    OnConsistent(compare, key);
    SortSorted(entities, On(compare, key));
  }
}

/**
 * `getLocalizedName` and `sortByLocalizedName` of the administration module,
 * for states and localities: the language tag is reduced to its first two
 * lowercase letters, and there is no fallback beyond the three designations.
 */
module AdminLocalization {
  import opened Js
  import opened ListOps

  datatype Designations = Designations(ar: Option<string>, en: Option<string>, fr: Option<string>)

  /** `language.toLowerCase().substring(0, 2)`. */
  function Normalize(language: string): (r: string)
    ensures |r| <= 2
  {
    var l := ToLower(language);
    if |l| <= 2 then l else l[..2]
  }

  function FallbackOrder(e: Designations, lang: string): (c: seq<Option<string>>)
    ensures |c| == 3
    ensures {c[0], c[1], c[2]} == {e.ar, e.en, e.fr}
  {
    if lang == "ar" then [e.ar, e.en, e.fr]
    else if lang == "fr" then [e.fr, e.en, e.ar]
    else [e.en, e.fr, e.ar]
  }

  /** `getLocalizedName(entity, language)`; `None` is a null or undefined entity. */
  function LocalizedName(entity: Option<Designations>, language: string): (r: string)
    ensures entity.None? ==> r == ""
  {
    if entity.None? then "" else FirstPresent(FallbackOrder(entity.value, Normalize(language)))
  }

  /** Normalising twice changes nothing, so a normalised tag picks the same name as the raw one. */
  lemma NormalizeIdempotent(language: string)
    ensures Normalize(Normalize(language)) == Normalize(language)
  {
    var l := ToLower(language);
    ToLowerIdempotent(language);
    if |l| > 2 {
      ToLowerIdempotent(l[..2]);
      assert ToLower(l[..2]) == ToLower(l)[..2] by {
        assert forall k :: 0 <= k < 2 ==> ToLower(l[..2])[k] == ToLowerChar(l[k]);
      }
    }
  }

  lemma LocalizedNameNormalized(entity: Option<Designations>, language: string)
    ensures LocalizedName(entity, Normalize(language)) == LocalizedName(entity, language)
  {
    NormalizeIdempotent(language);
  }

  /** `FR-ca` reads as French. */
  lemma RegionalTagNormalized(e: Designations)
    ensures LocalizedName(Some(e), "FR-ca") == LocalizedName(Some(e), "fr")
  {
    assert ToLower("FR-ca") == "fr-ca";
    assert Normalize("FR-ca") == "fr";
  }

  /** The name is one of the three designations, and empty exactly when none is there. */
  lemma LocalizedNameIsADesignation(e: Designations, language: string)
    ensures var r := LocalizedName(Some(e), language);
      r == "" || Some(r) in {e.ar, e.en, e.fr}
    ensures LocalizedName(Some(e), language) == "" <==> !Present(e.ar) && !Present(e.en) && !Present(e.fr)
  {
    var c := FallbackOrder(e, Normalize(language));
    var r := LocalizedName(Some(e), language);
    FirstPresentSpec(c);
    if r != "" {
      var i :| 0 <= i < |c| && c[i] == Some(r) && forall j :: 0 <= j < i ==> !Present(c[j]);
    }
    if !Present(e.ar) && !Present(e.en) && !Present(e.fr) {
      assert forall k :: 0 <= k < 3 ==> !Present(c[k]);
    }
  }

  function SortKey<T>(view: T -> Designations, language: string): T -> string {
    (x: T) => LocalizedName(Some(view(x)), language)
  }

  /** `sortByLocalizedName(items, language)`: a sorted copy, compared without lowercasing. */
  function SortByLocalizedName<T>(items: seq<T>, view: T -> Designations, language: string, compare: (string, string) -> int): (r: seq<T>)
    ensures multiset(r) == multiset(items)
  {
    Sort(items, On(compare, SortKey(view, language)))
  }

  lemma SortByLocalizedNameSpec<T(!new)>(items: seq<T>, view: T -> Designations, language: string, compare: (string, string) -> int)
    requires Consistent(compare)
    ensures var r := SortByLocalizedName(items, view, language, compare);
      && multiset(r) == multiset(items)
      && forall i, j :: 0 <= i < j < |r| ==>
           compare(LocalizedName(Some(view(r[i])), language), LocalizedName(Some(view(r[j])), language)) <= 0
  {
    var key := SortKey(view, language);
    OnConsistent(compare, key);
    SortSorted(items, On(compare, key));
  }
}
