/**
 * The plugin catalog of the site and its lookups: by slug, by category, the category
 * list, and the free-text search.
 *
 * The catalog itself is static data; it is a parameter here, so every property holds of
 * any catalog, not only of the one the site ships.
 */
module Plugins {
  import opened Wrappers
  import opened Text
  import opened Seqs

  datatype PluginCategory = AI | DataVisualization | Diagrams | Utilities

  /** The fields of a plugin that the lookups read; the page-only fields are left out. */
  datatype Plugin = Plugin(
    slug: string,
    name: string,
    packageName: string,
    description: string,
    category: PluginCategory,
    tags: seq<string>)

  /** `getPluginBySlug`: the first plugin with that slug, or nothing. */
  function PluginBySlug(catalog: seq<Plugin>, slug: string): (r: Option<Plugin>)
    ensures r.Some? ==> r.value.slug == slug
    ensures r.Some? ==> exists i :: 0 <= i < |catalog| && catalog[i] == r.value &&
                          forall j :: 0 <= j < i ==> catalog[j].slug != slug
    ensures r.None? <==> forall i :: 0 <= i < |catalog| ==> catalog[i].slug != slug
  {
    FindFirst(catalog, (p: Plugin) => p.slug == slug)
  }

  /** With unique slugs, the lookup finds exactly the plugin carrying the slug. */
  lemma PluginBySlugUnique(catalog: seq<Plugin>, k: nat)
    requires k < |catalog|
    requires forall i, j :: 0 <= i < j < |catalog| ==> catalog[i].slug != catalog[j].slug
    ensures PluginBySlug(catalog, catalog[k].slug) == Some(catalog[k])
  {
    var r := PluginBySlug(catalog, catalog[k].slug);
    var i :| 0 <= i < |catalog| && catalog[i] == r.value &&
      forall j :: 0 <= j < i ==> catalog[j].slug != catalog[k].slug;
    assert !(k < i) && !(i < k);
  }

  function InCategory(c: PluginCategory): Plugin -> bool {
    (p: Plugin) => p.category == c
  }

  /** `getPluginsByCategory`: the plugins of category `c`, in catalog order. */
  function PluginsByCategory(catalog: seq<Plugin>, c: PluginCategory): (r: seq<Plugin>)
    ensures forall i :: 0 <= i < |r| ==> r[i].category == c
    ensures forall p :: p in r <==> p in catalog && p.category == c
    ensures SubseqOf(r, catalog)
  {
    FilterSubseq(catalog, InCategory(c));
    Filter(catalog, InCategory(c))
  }

  /** The four categories split the catalog: every plugin is listed under exactly one. */
  lemma {:induction false} PluginsByCategoryPartition(catalog: seq<Plugin>)
    ensures |PluginsByCategory(catalog, AI)| + |PluginsByCategory(catalog, DataVisualization)| +
      |PluginsByCategory(catalog, Diagrams)| + |PluginsByCategory(catalog, Utilities)| == |catalog|
  {
    if |catalog| > 0 {
      PluginsByCategoryPartition(catalog[1..]);
    }
  }

  function CategoryColumn(catalog: seq<Plugin>): (r: seq<PluginCategory>)
    ensures |r| == |catalog|
    ensures forall i :: 0 <= i < |catalog| ==> r[i] == catalog[i].category
  {
    seq(|catalog|, i requires 0 <= i < |catalog| => catalog[i].category)
  }

  /** `getCategories`: each category some plugin has, once, in order of first appearance. */
  function Categories(catalog: seq<Plugin>): (r: seq<PluginCategory>)
    ensures forall c :: c in r <==> exists i :: 0 <= i < |catalog| && catalog[i].category == c
    ensures forall i, j :: 0 <= i < j < |r| ==> r[i] != r[j]
  {
    var column := CategoryColumn(catalog);
    assert forall c :: c in column <==> exists i :: 0 <= i < |catalog| && catalog[i].category == c by {
      forall c | c in column ensures exists i :: 0 <= i < |catalog| && catalog[i].category == c {
        var i :| 0 <= i < |column| && column[i] == c;
      }
    }
    Distinct(column)
  }

  /** The categories come out in the order in which the catalog first mentions them. */
  lemma CategoriesFirstSeen(catalog: seq<Plugin>)
    ensures forall i, j :: 0 <= i < j < |Categories(catalog)| ==>
      FirstIndex(CategoryColumn(catalog), Categories(catalog)[i]) <
      FirstIndex(CategoryColumn(catalog), Categories(catalog)[j])
  {
    DistinctOrder(CategoryColumn(catalog));
  }

  /** Listed categories are exactly those with a non-empty listing. */
  lemma CategoriesNonEmpty(catalog: seq<Plugin>, c: PluginCategory)
    ensures c in Categories(catalog) <==> |PluginsByCategory(catalog, c)| > 0
  {
    var r := PluginsByCategory(catalog, c);
    if c in Categories(catalog) {
      var i :| 0 <= i < |catalog| && catalog[i].category == c;
      assert catalog[i] in r;
    }
    if |r| > 0 {
      assert r[0] in catalog;
      var i :| 0 <= i < |catalog| && catalog[i] == r[0];
      assert catalog[i].category == c;
    }
  }

  /** A plugin matches the lower-cased query `q` by its name, its description or a tag. */
  predicate Matches(p: Plugin, q: string) {
    Contains(Lower(p.name), q) || Contains(Lower(p.description), q) ||
    Any(p.tags, (t: string) => Contains(Lower(t), q))
  }

  function MatchesQuery(q: string): Plugin -> bool {
    (p: Plugin) => Matches(p, Lower(q))
  }

  /** `searchPlugins`: the plugins matching the query case-insensitively, in catalog order. */
  function Search(catalog: seq<Plugin>, query: string): (r: seq<Plugin>)
    ensures forall p :: p in r <==> p in catalog && Matches(p, Lower(query))
    ensures SubseqOf(r, catalog)
  {
    FilterSubseq(catalog, MatchesQuery(query));
    Filter(catalog, MatchesQuery(query))
  }

  /** The empty query is a substring of every name, so it lists the whole catalog. */
  lemma SearchEmptyQuery(catalog: seq<Plugin>)
    ensures Search(catalog, "") == catalog
  {
    forall i | 0 <= i < |catalog| ensures MatchesQuery("")(catalog[i]) {
      ContainsEmpty(Lower(catalog[i].name));
    }
    FilterAll(catalog, MatchesQuery(""));
  }

  /** The query's case does not matter: searching its lower-case form gives the same list. */
  lemma SearchIgnoresQueryCase(catalog: seq<Plugin>, query: string)
    ensures Search(catalog, Lower(query)) == Search(catalog, query)
  {
    LowerIdempotent(query);
    assert MatchesQuery(Lower(query)) == MatchesQuery(query);
  }

  /** Searching for a plugin's own name, in any case, finds it. */
  lemma SearchFindsByName(catalog: seq<Plugin>, k: nat)
    requires k < |catalog|
    ensures catalog[k] in Search(catalog, catalog[k].name)
  {
    ContainsSelf(Lower(catalog[k].name));
  }
}
