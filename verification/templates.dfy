/**
 * The template gallery's lookups: the fixed category list, the per-category listing, the
 * "Open in Studio" link and the lookup by id.
 *
 * As for plugins, the gallery data is a parameter.
 */
module Templates {
  import opened Wrappers
  import opened Text
  import opened Seqs

  datatype TemplateCategory = AiWorkflows | DataViz | Marketing | Utilities

  /** The label a category is shown and compared under. */
  function CategoryLabel(c: TemplateCategory): string {
    match c
    case AiWorkflows => "AI Workflows"
    case DataViz => "Data Viz"
    case Marketing => "Marketing"
    case Utilities => "Utilities"
  }

  lemma CategoryLabelInjective(a: TemplateCategory, b: TemplateCategory)
    ensures CategoryLabel(a) == CategoryLabel(b) ==> a == b
  {
    if a != b {
      assert CategoryLabel(a)[0] != CategoryLabel(b)[0] || |CategoryLabel(a)| != |CategoryLabel(b)|;
    }
  }

  /** The fields of a gallery entry the lookups read. */
  datatype GalleryTemplate = GalleryTemplate(
    id: string,
    name: string,
    description: string,
    category: TemplateCategory,
    generator: string,
    tags: Option<seq<string>>)

  /** `getCategories`: every category label exactly once, in the gallery's display order. */
  function Categories(): (r: seq<string>)
    ensures |r| == 4
    ensures forall c: TemplateCategory :: CategoryLabel(c) in r
    ensures forall i, j :: 0 <= i < j < |r| ==> r[i] != r[j]
    ensures r[0] == CategoryLabel(AiWorkflows) && r[1] == CategoryLabel(DataViz)
    ensures r[2] == CategoryLabel(Marketing) && r[3] == CategoryLabel(Utilities)
  {
    ["AI Workflows", "Data Viz", "Marketing", "Utilities"]
  }

  function HasLabel(wanted: string): GalleryTemplate -> bool {
    (t: GalleryTemplate) => CategoryLabel(t.category) == wanted
  }

  /**
   * `getTemplatesByCategory`: the templates whose category label equals `wanted`, in
   * gallery order. The argument is any string; a string that labels no category lists nothing.
   */
  function TemplatesByCategory(gallery: seq<GalleryTemplate>, wanted: string): (r: seq<GalleryTemplate>)
    ensures forall t :: t in r <==> t in gallery && CategoryLabel(t.category) == wanted
    ensures wanted !in Categories() ==> r == []
    ensures SubseqOf(r, gallery)
  {
    FilterSubseq(gallery, HasLabel(wanted));
    Filter(gallery, HasLabel(wanted))
  }

  /** Listing each category in turn covers the gallery exactly once. */
  lemma {:induction false} TemplatesByCategoryPartition(gallery: seq<GalleryTemplate>)
    ensures |TemplatesByCategory(gallery, CategoryLabel(AiWorkflows))| +
      |TemplatesByCategory(gallery, CategoryLabel(DataViz))| +
      |TemplatesByCategory(gallery, CategoryLabel(Marketing))| +
      |TemplatesByCategory(gallery, CategoryLabel(Utilities))| == |gallery|
  {
    if |gallery| > 0 {
      TemplatesByCategoryPartition(gallery[1..]);
      var c := gallery[0].category;
      forall d | d != c ensures CategoryLabel(d) != CategoryLabel(c) {
        CategoryLabelInjective(c, d);
      }
    }
  }

  const StudioPrefix: string := "https://studio.floimg.com/?template="

  /** `getStudioUrl`: the Studio address with the id appended as is, without URL encoding. */
  function StudioUrl(templateId: string): (r: string)
    ensures StartsWith(r, StudioPrefix)
    ensures r[|StudioPrefix|..] == templateId
  {
    StudioPrefix + templateId
  }

  /** Reads the template id back out of a Studio link. */
  function StudioUrlId(url: string): (r: Option<string>)
    ensures r.Some? <==> StartsWith(url, StudioPrefix)
  {
    if StartsWith(url, StudioPrefix) then Some(url[|StudioPrefix|..]) else None
  }

  /** The link carries the id unchanged: reading it back gives the id. */
  lemma StudioUrlRoundTrip(templateId: string)
    ensures StudioUrlId(StudioUrl(templateId)) == Some(templateId)
  {
  }

  /** Every Studio link is the link of the id it carries. */
  lemma StudioUrlIdRoundTrip(url: string)
    requires StudioUrlId(url).Some?
    ensures StudioUrl(StudioUrlId(url).value) == url
  {
    assert url == url[..|StudioPrefix|] + url[|StudioPrefix|..];
  }

  /** `getTemplateById`: the first template with that id, or nothing. */
  function TemplateById(gallery: seq<GalleryTemplate>, id: string): (r: Option<GalleryTemplate>)
    ensures r.Some? ==> r.value.id == id
    ensures r.Some? ==> exists i :: 0 <= i < |gallery| && gallery[i] == r.value &&
                          forall j :: 0 <= j < i ==> gallery[j].id != id
    ensures r.None? <==> forall i :: 0 <= i < |gallery| ==> gallery[i].id != id
  {
    FindFirst(gallery, (t: GalleryTemplate) => t.id == id)
  }
}
