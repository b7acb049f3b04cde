/**
 * A MangaDex manga record and its accessors: map lookups for the title and description,
 * the ", "-joined author, artist and tag lists, the https links and the alternative
 * titles. The loops over Go maps visit the keys in an order the model leaves open.
 */
module Manga {
  import opened Strings
  import opened Sequences
  import Urls

  datatype RelAttribute = RelAttribute(name: string, username: string, description: string)

  /** An entry of a record's `relationships` list: an author, artist, group, user or manga. */
  datatype Relationship = Relationship(id: string, typ: string, related: string, attributes: RelAttribute)

  datatype MangaTag = MangaTag(id: string, typ: string, name: map<string, string>, group: string)

  datatype MangaInfo = MangaInfo(
    id: string,
    typ: string,
    title: map<string, string>,
    altTitles: seq<map<string, string>>,
    description: map<string, string>,
    links: map<string, string>,
    originalLanguage: string,
    status: string,
    year: int,
    tags: seq<MangaTag>,
    availableTranslatedLanguages: seq<string>,
    relationships: seq<Relationship>)
  {
    /** The title in `language`, "" when the manga has none in that language. */
    function Title(language: string): (t: string)
      ensures language in title ==> t == title[language]
      ensures language !in title ==> t == ""
    {
      Lookup(title, language)
    }

    /** The description in `language`, "" when there is none in that language. */
    function Description(language: string): (d: string)
      ensures language in description ==> d == description[language]
      ensures language !in description ==> d == ""
    {
      Lookup(description, language)
    }

    /** The names of the "author" relationships, in order, joined with ", ". */
    method Authors() returns (r: string)
      ensures r == Join(NamesOfType(relationships, "author"), ", ")
    {
      r := JoinNamesOfType(relationships, "author");
    }

    /** The names of the "artist" relationships, in order, joined with ", ". */
    method Artists() returns (r: string)
      ensures r == Join(NamesOfType(relationships, "artist"), ", ")
    {
      r := JoinNamesOfType(relationships, "artist");
    }

    /** The English names of the entries of type "tag", in order, joined with ", ". */
    method Tags() returns (r: string)
      ensures r == Join(EnglishTagNames(tags), ", ")
    {
      var names: seq<string> := [];
      var i := 0;
      while i < |tags|
        invariant 0 <= i <= |tags|
        invariant names == EnglishTagNames(tags[..i])
      {
        if tags[i].typ == "tag" {
          names := names + [Lookup(tags[i].name, "en")];
        }
        assert tags[..i + 1][..i] == tags[..i];
        i := i + 1;
      }
      assert tags[..i] == tags;
      r := Join(names, ", ");
    }

    /**
     * The link values that parse with scheme "https", in the order the map is visited;
     * `order` is that order.
     */
    method Links() returns (r: seq<string>, ghost order: seq<string>)
      ensures IsEnumeration(order, links.Keys)
      ensures r == HttpsLinks(ValuesInOrder(links, order))
    {
      r := [];
      order := [];
      var remaining := links.Keys;
      ghost var visited: set<string> := {};
      while remaining != {}
        invariant remaining == links.Keys - visited
        invariant PartialEnumeration(order, visited, links.Keys)
        invariant r == HttpsLinks(ValuesInOrder(links, order))
        decreases |remaining|
      {
        var key :| key in remaining;
        var link := links[key];
        if IsHttpsLink(link) {
          r := r + [link];
        }
        ValuesInOrderSnoc(links, order, key);
        HttpsLinksSnoc(ValuesInOrder(links, order), link);
        EnumerationVisit(order, visited, remaining, links.Keys, key);
        order := order + [key];
        visited := visited + {key};
        remaining := remaining - {key};
      }
      EnumerationDone(order, links.Keys);
    }

    /**
     * Every alternative title as "title (language)", the languages of each map in the
     * order that map is visited, joined with " | "; `items` and `orders` are the
     * formatted items and the orders used.
     */
    method AltTitles() returns (r: string, ghost items: seq<string>, ghost orders: seq<seq<string>>)
      ensures Enumerations(altTitles, orders)
      ensures items == AltTitleItems(altTitles, orders)
      ensures r == Join(items, " | ")
    {
      var collected: seq<string> := [];
      orders := [];
      var i := 0;
      while i < |altTitles|
        invariant 0 <= i <= |altTitles|
        invariant Enumerations(altTitles[..i], orders)
        invariant collected == AltTitleItems(altTitles[..i], orders)
      {
        var m := altTitles[i];
        var formatted, order := FormatLanguages(m);
        AltTitlesStep(altTitles, i, orders, collected, order, formatted);
        collected := collected + formatted;
        orders := orders + [order];
        i := i + 1;
      }
      assert altTitles[..i] == altTitles;
      items := collected;
      r := Join(collected, " | ");
    }
  }

  /** The inner loop of AltTitles: one "title (language)" item per language of `m`. */
  method FormatLanguages(m: map<string, string>) returns (items: seq<string>, ghost order: seq<string>)
    ensures IsEnumeration(order, m.Keys)
    ensures items == ValuesInOrder(Formatted(m), order)
  {
    items := [];
    order := [];
    var remaining := m.Keys;
    ghost var visited: set<string> := {};
    ghost var f := Formatted(m);
    while remaining != {}
      invariant remaining == m.Keys - visited
      invariant PartialEnumeration(order, visited, m.Keys)
      invariant items == ValuesInOrder(f, order)
      decreases |remaining|
    {
      var language :| language in remaining;
      items := items + [FormatAltTitle(m[language], language)];
      ValuesInOrderSnoc(f, order, language);
      EnumerationVisit(order, visited, remaining, m.Keys, language);
      order := order + [language];
      visited := visited + {language};
      remaining := remaining - {language};
    }
    EnumerationDone(order, m.Keys);
  }

  /** Go's read of an absent map key: the zero value, "" for strings. */
  function Lookup(m: map<string, string>, key: string): string
  {
    if key in m then m[key] else ""
  }

  /** The attribute names of the relationships of type `t`, in relationship order. */
  function NamesOfType(rels: seq<Relationship>, t: string): seq<string>
    decreases |rels|
  {
    if rels == [] then []
    else
      var last := rels[|rels| - 1];
      NamesOfType(rels[..|rels| - 1], t) + (if last.typ == t then [last.attributes.name] else [])
  }

  /** The loop shared by Authors and Artists: collect the names of type `t`, then join them. */
  method JoinNamesOfType(rels: seq<Relationship>, t: string) returns (r: string)
    ensures r == Join(NamesOfType(rels, t), ", ")
  {
    var names: seq<string> := [];
    var i := 0;
    while i < |rels|
      invariant 0 <= i <= |rels|
      invariant names == NamesOfType(rels[..i], t)
    {
      if rels[i].typ == t {
        names := names + [rels[i].attributes.name];
      }
      assert rels[..i + 1][..i] == rels[..i];
      i := i + 1;
    }
    assert rels[..i] == rels;
    r := Join(names, ", ");
  }

  /** The `Name["en"]` of each entry of type "tag", in order. */
  function EnglishTagNames(tags: seq<MangaTag>): seq<string>
    decreases |tags|
  {
    if tags == [] then []
    else
      var last := tags[|tags| - 1];
      EnglishTagNames(tags[..|tags| - 1]) + (if last.typ == "tag" then [Lookup(last.name, "en")] else [])
  }

  /** The test Links applies: the link parses and its scheme is "https". */
  predicate IsHttpsLink(link: string)
  {
    Urls.Parse(link).Some? && Urls.Parse(link).value.scheme == "https"
  }

  function HttpsLinks(links: seq<string>): seq<string>
    decreases |links|
  {
    if links == [] then []
    else
      var last := links[|links| - 1];
      HttpsLinks(links[..|links| - 1]) + (if IsHttpsLink(last) then [last] else [])
  }

  lemma HttpsLinksSnoc(links: seq<string>, link: string)
    ensures HttpsLinks(links + [link]) == HttpsLinks(links) + if IsHttpsLink(link) then [link] else []
  {
    assert (links + [link])[..|links|] == links;
  }

  function FormatAltTitle(title: string, language: string): string
  {
    title + " (" + language + ")"
  }

  /** Each language of an alternative-title map sent to its formatted item. */
  function Formatted(m: map<string, string>): (f: map<string, string>)
    ensures f.Keys == m.Keys
    ensures forall language :: language in m ==> f[language] == FormatAltTitle(m[language], language)
  {
    map language | language in m :: FormatAltTitle(m[language], language)
  }

  /** Each order lists keys of its map only. */
  ghost predicate OrdersWithin(alt: seq<map<string, string>>, orders: seq<seq<string>>)
  {
    |orders| == |alt| && forall i, k :: 0 <= i < |alt| && k in orders[i] ==> k in alt[i]
  }

  /** One enumeration per map. */
  ghost predicate Enumerations(alt: seq<map<string, string>>, orders: seq<seq<string>>)
  {
    OrdersWithin(alt, orders) && forall i :: 0 <= i < |alt| ==> IsEnumeration(orders[i], alt[i].Keys)
  }

  /** The items of one more map come after those of the earlier maps. */
  lemma AltTitleItemsSnoc(alt: seq<map<string, string>>, orders: seq<seq<string>>, order: seq<string>)
    requires |alt| == |orders| + 1 && OrdersWithin(alt[..|orders|], orders)
    requires forall k :: k in order ==> k in alt[|orders|]
    ensures OrdersWithin(alt, orders + [order])
    ensures AltTitleItems(alt, orders + [order])
         == AltTitleItems(alt[..|orders|], orders) + ValuesInOrder(Formatted(alt[|orders|]), order)
  {
    assert (orders + [order])[..|orders|] == orders;
  }

  /** One round of AltTitles: the next map's items are appended in its visiting order. */
  lemma AltTitlesStep(alt: seq<map<string, string>>, i: nat, orders: seq<seq<string>>, collected: seq<string>,
                      order: seq<string>, formatted: seq<string>)
    requires i < |alt| && Enumerations(alt[..i], orders) && collected == AltTitleItems(alt[..i], orders)
    requires IsEnumeration(order, alt[i].Keys) && formatted == ValuesInOrder(Formatted(alt[i]), order)
    ensures Enumerations(alt[..i + 1], orders + [order])
    ensures collected + formatted == AltTitleItems(alt[..i + 1], orders + [order])
  {
    var next := alt[..i + 1];
    assert next[..i] == alt[..i] && next[i] == alt[i];
    AltTitleItemsSnoc(next, orders, order);
    EnumerationsSnoc(next, orders, order);
  }

  lemma EnumerationsSnoc(alt: seq<map<string, string>>, orders: seq<seq<string>>, order: seq<string>)
    requires |alt| == |orders| + 1 && Enumerations(alt[..|orders|], orders)
    requires IsEnumeration(order, alt[|orders|].Keys)
    ensures Enumerations(alt, orders + [order])
  {
    var n, os := |orders|, orders + [order];
    forall j | 0 <= j < |alt| ensures IsEnumeration(os[j], alt[j].Keys) {
      if j < n {
        assert os[j] == orders[j] && alt[j] == alt[..n][j];
      } else {
        assert os[j] == order;
      }
    }
    forall j, k | 0 <= j < |alt| && k in os[j] ensures k in alt[j] {
      if j < n {
        assert os[j] == orders[j] && alt[j] == alt[..n][j];
      } else {
        assert os[j] == order;
      }
    }
  }

  /** The items AltTitles collects: map by map, each in its own visiting order. */
  function AltTitleItems(alt: seq<map<string, string>>, orders: seq<seq<string>>): seq<string>
    requires OrdersWithin(alt, orders)
    decreases |alt|
  {
    if alt == [] then []
    else
      var n := |alt| - 1;
      AltTitleItems(alt[..n], orders[..n]) + ValuesInOrder(Formatted(alt[n]), orders[n])
  }

  // Properties of the relationship filters.

  /** Filtering by type distributes over concatenation: relationship order is kept. */
  lemma {:induction false} NamesOfTypeConcat(a: seq<Relationship>, b: seq<Relationship>, t: string)
    ensures NamesOfType(a + b, t) == NamesOfType(a, t) + NamesOfType(b, t)
    decreases |b|
  {
    if b == [] {
      assert a + b == a;
    } else {
      var b' := b[..|b| - 1];
      assert (a + b)[..|a + b| - 1] == a + b';
      NamesOfTypeConcat(a, b', t);
    }
  }

  /** A name is listed exactly for the relationships of the type, one per relationship. */
  lemma NamesOfTypeMembers(rels: seq<Relationship>, t: string)
    ensures |NamesOfType(rels, t)| == |TypedIndices(rels, t)|
    ensures forall i :: 0 <= i < |rels| && rels[i].typ == t ==> rels[i].attributes.name in NamesOfType(rels, t)
    ensures forall n :: n in NamesOfType(rels, t) ==> exists i :: 0 <= i < |rels| && rels[i].typ == t && rels[i].attributes.name == n
  {
    NamesOfTypeCount(rels, t);
    NamesOfTypeIn(rels, t);
  }

  lemma {:induction false} NamesOfTypeCount(rels: seq<Relationship>, t: string)
    ensures |NamesOfType(rels, t)| == |TypedIndices(rels, t)|
    decreases |rels|
  {
    if rels != [] {
      NamesOfTypeCount(rels[..|rels| - 1], t);
      TypedIndicesSnoc(rels, t);
    }
  }

  lemma TypedIndicesSnoc(rels: seq<Relationship>, t: string)
    requires rels != []
    ensures var n := |rels| - 1;
            |TypedIndices(rels, t)| == |TypedIndices(rels[..n], t)| + if rels[n].typ == t then 1 else 0
  {
    var n := |rels| - 1;
    var init := rels[..n];
    assert TypedIndices(rels, t) == TypedIndices(init, t) + (if rels[n].typ == t then {n} else {});
    assert n !in TypedIndices(init, t);
  }

  lemma {:induction false} NamesOfTypeIn(rels: seq<Relationship>, t: string)
    ensures forall i :: 0 <= i < |rels| && rels[i].typ == t ==> rels[i].attributes.name in NamesOfType(rels, t)
    ensures forall n :: n in NamesOfType(rels, t) ==> exists i :: 0 <= i < |rels| && rels[i].typ == t && rels[i].attributes.name == n
    decreases |rels|
  {
    if rels != [] {
      var n := |rels| - 1;
      var init := rels[..n];
      NamesOfTypeIn(init, t);
      forall i | 0 <= i < n ensures rels[i] == init[i] {
      }
    }
  }

  /** The indices of the relationships of type `t`. */
  function TypedIndices(rels: seq<Relationship>, t: string): set<int>
  {
    set i | 0 <= i < |rels| && rels[i].typ == t
  }

  /** With no relationship of the type the result is the empty string. */
  lemma NoneOfTypeEmpty(rels: seq<Relationship>, t: string)
    requires forall i :: 0 <= i < |rels| ==> rels[i].typ != t
    ensures Join(NamesOfType(rels, t), ", ") == ""
  {
    NamesOfTypeMembers(rels, t);
    assert TypedIndices(rels, t) == {};
  }

  /** When no name holds a comma, splitting the joined list at ", " gives the names back. */
  lemma AuthorsSplitBack(rels: seq<Relationship>, t: string)
    requires NamesOfType(rels, t) != []
    requires forall i :: 0 <= i < |rels| ==> ',' !in rels[i].attributes.name
    ensures Split(Join(NamesOfType(rels, t), ", "), ", ") == NamesOfType(rels, t)
  {
    var names := NamesOfType(rels, t);
    NamesOfTypeMembers(rels, t);
    forall j | 0 <= j < |names| ensures ','  !in names[j] {
      assert names[j] in names;
    }
    JoinSplit(names, ", ");
  }

  /** Only entries of type "tag" contribute to Tags, each with its English name, in order. */
  lemma {:induction false} EnglishTagNamesConcat(a: seq<MangaTag>, b: seq<MangaTag>)
    ensures EnglishTagNames(a + b) == EnglishTagNames(a) + EnglishTagNames(b)
    decreases |b|
  {
    if b == [] {
      assert a + b == a;
    } else {
      var b' := b[..|b| - 1];
      assert (a + b)[..|a + b| - 1] == a + b';
      EnglishTagNamesConcat(a, b');
    }
  }

  lemma EnglishTagNamesOne(t: MangaTag)
    ensures EnglishTagNames([t]) == if t.typ == "tag" then [Lookup(t.name, "en")] else []
  {
    assert [t][..0] == [];
  }

  // Properties of Links and AltTitles.

  /** The pointwise count of the https filter: an https link keeps its count, any other drops out. */
  lemma {:induction false} HttpsLinksCount(links: seq<string>, s: string)
    ensures multiset(HttpsLinks(links))[s] == if IsHttpsLink(s) then multiset(links)[s] else 0
    decreases |links|
  {
    if links != [] {
      var init := links[..|links| - 1];
      HttpsLinksCount(init, s);
      assert links == init + [links[|links| - 1]];
    }
  }

  /** Every returned link parses with scheme https, and every https value of the map is returned. */
  lemma LinksSound(links: map<string, string>, order: seq<string>)
    requires IsEnumeration(order, links.Keys)
    ensures forall l :: l in HttpsLinks(ValuesInOrder(links, order)) <==> l in links.Values && IsHttpsLink(l)
  {
    var vs := ValuesInOrder(links, order);
    EnumerationValues(links, order);
    forall l ensures l in HttpsLinks(vs) <==> l in links.Values && IsHttpsLink(l) {
      HttpsLinksCount(vs, l);
    }
  }

  /** The returned links, as a multiset, do not depend on the map's visiting order. */
  lemma LinksOrderIrrelevant(links: map<string, string>, o1: seq<string>, o2: seq<string>)
    requires IsEnumeration(o1, links.Keys) && IsEnumeration(o2, links.Keys)
    ensures multiset(HttpsLinks(ValuesInOrder(links, o1))) == multiset(HttpsLinks(ValuesInOrder(links, o2)))
  {
    ValuesOrderIrrelevant(links, o1, o2, links.Keys);
    forall s ensures multiset(HttpsLinks(ValuesInOrder(links, o1)))[s] == multiset(HttpsLinks(ValuesInOrder(links, o2)))[s] {
      HttpsLinksCount(ValuesInOrder(links, o1), s);
      HttpsLinksCount(ValuesInOrder(links, o2), s);
    }
  }

  /** Every alternative-title item is "title (language)" for a language of one of the maps. */
  lemma {:induction false} AltTitleItemsForm(alt: seq<map<string, string>>, orders: seq<seq<string>>)
    requires OrdersWithin(alt, orders)
    ensures forall item :: item in AltTitleItems(alt, orders) ==>
      exists i, language :: 0 <= i < |alt| && language in alt[i] && item == FormatAltTitle(alt[i][language], language)
    decreases |alt|
  {
    if alt != [] {
      var n := |alt| - 1;
      AltTitleItemsForm(alt[..n], orders[..n]);
      var vs := ValuesInOrder(Formatted(alt[n]), orders[n]);
      forall item | item in vs
        ensures exists language :: language in alt[n] && item == FormatAltTitle(alt[n][language], language)
      {
        var j :| 0 <= j < |vs| && vs[j] == item;
        assert orders[n][j] in alt[n];
      }
    }
  }

  /** The multiset of alternative-title items does not depend on the visiting orders. */
  lemma {:induction false} AltTitlesOrderIrrelevant(alt: seq<map<string, string>>, o1: seq<seq<string>>, o2: seq<seq<string>>)
    requires Enumerations(alt, o1) && Enumerations(alt, o2)
    ensures multiset(AltTitleItems(alt, o1)) == multiset(AltTitleItems(alt, o2))
    decreases |alt|
  {
    if alt != [] {
      var n := |alt| - 1;
      AltTitlesOrderIrrelevant(alt[..n], o1[..n], o2[..n]);
      ValuesOrderIrrelevant(Formatted(alt[n]), o1[n], o2[n], alt[n].Keys);
    }
  }

  /** The number of (language, title) pairs of all the maps together. */
  function PairCount(alt: seq<map<string, string>>): nat
    decreases |alt|
  {
    if alt == [] then 0 else PairCount(alt[..|alt| - 1]) + |alt[|alt| - 1]|
  }

  lemma EnumerationsPrefix(alt: seq<map<string, string>>, orders: seq<seq<string>>, n: nat)
    requires Enumerations(alt, orders) && n <= |alt|
    ensures Enumerations(alt[..n], orders[..n])
  {
    assert forall j :: 0 <= j < n ==> alt[..n][j] == alt[j] && orders[..n][j] == orders[j];
  }

  /** AltTitles yields one item per (language, title) pair, and no more. */
  lemma {:induction false} AltTitlesCount(alt: seq<map<string, string>>, orders: seq<seq<string>>)
    requires Enumerations(alt, orders)
    ensures |AltTitleItems(alt, orders)| == PairCount(alt)
    decreases |alt|
  {
    if alt != [] {
      var n := |alt| - 1;
      EnumerationsPrefix(alt, orders, n);
      AltTitlesCount(alt[..n], orders[..n]);
      EnumerationLength(orders[n], alt[n].Keys);
      assert |alt[n].Keys| == |alt[n]|;
    }
  }

  /** Every (language, title) pair of every map appears as the item "title (language)". */
  lemma {:induction false} AltTitlesComplete(alt: seq<map<string, string>>, orders: seq<seq<string>>)
    requires Enumerations(alt, orders)
    ensures forall i, language :: 0 <= i < |alt| && language in alt[i] ==>
      FormatAltTitle(alt[i][language], language) in AltTitleItems(alt, orders)
    decreases |alt|
  {
    if alt != [] {
      var n := |alt| - 1;
      EnumerationsPrefix(alt, orders, n);
      AltTitlesComplete(alt[..n], orders[..n]);
      var before, vs := AltTitleItems(alt[..n], orders[..n]), ValuesInOrder(Formatted(alt[n]), orders[n]);
      assert AltTitleItems(alt, orders) == before + vs;
      forall i, language | 0 <= i < |alt| && language in alt[i]
        ensures FormatAltTitle(alt[i][language], language) in before + vs
      {
        if i < n {
          assert alt[..n][i] == alt[i];
        } else {
          assert language in orders[n];
          var j :| 0 <= j < |orders[n]| && orders[n][j] == language;
          assert vs[j] == FormatAltTitle(alt[n][language], language);
        }
      }
    }
  }
}
