/**
 * Blog author resolution: the registry of authors keyed by their frontmatter id, the lookup
 * with its legacy team aliases and its fallback, and the list of team members.
 */
module Authors {
  import opened Wrappers
  import opened Text
  import opened Seqs

  /** An author entry; `role` and `isTeam` are optional fields of the record. */
  datatype Author = Author(
    id: string,
    name: string,
    username: Option<string>,
    avatarUrl: Option<string>,
    role: Option<string>,
    isTeam: Option<bool>)

  const Brett := Author("brett", "Brett Cooke", Some("brett"), Some("https://github.com/brettcooke.png"),
    Some("Co-founder & CEO"), Some(true))
  const Brandon := Author("brandon", "Brandon L'Europa", Some("brandon"), Some("https://github.com/bleuropa.png"),
    Some("Co-founder & CTO"), Some(true))
  const Team := Author("team", "FloImg Team", None, None, None, Some(true))

  /** The registry's entries in declaration order, which is the order `Object.values` lists them. */
  const Entries: seq<Author> := [Brett, Brandon, Team]

  /** The registry keyed by id. */
  const Registry: map<string, Author> := map["brett" := Brett, "brandon" := Brandon, "team" := Team]

  /** Each entry is filed under its own id, and the registry holds nothing else. */
  lemma RegistryKeyedById()
    ensures forall k :: k in Registry ==> Registry[k].id == k && Registry[k] in Entries
    ensures forall i :: 0 <= i < |Entries| ==> Entries[i].id in Registry && Registry[Entries[i].id] == Entries[i]
  {
    assert Entries[0] == Brett && Entries[1] == Brandon && Entries[2] == Team;
  }

  /** The ids that name the collective author, compared after lower-casing. */
  predicate IsTeamAlias(normalized: string) {
    normalized == "floimg team" || normalized == "team"
  }

  /** The stand-in for an unknown id: the id as given, as both id and name, and no profile. */
  function Fallback(authorId: string): Author {
    Author(authorId, authorId, None, None, None, None)
  }

  /**
   * Inherited members of a plain object whose names are all lower case. Indexing the
   * registry with one of them finds the inherited value instead of missing.
   */
  const PrototypeKeys: set<string> := {"constructor", "__proto__"}

  /** What indexing the registry object can produce: an author, or an inherited member. */
  datatype Lookup = Found(author: Author) | Inherited(key: string)

  /**
   * `getAuthor` as written: the team aliases, then the registry indexed by the lower-cased
   * id, then the fallback. The index consults inherited members too, and those are truthy.
   */
  function GetAuthorAsWritten(authorId: string): (r: Lookup)
    ensures r.Inherited? <==> Lower(authorId) in PrototypeKeys
  {
    var normalized := Lower(authorId);
    if IsTeamAlias(normalized) then Found(Team)
    else if normalized in Registry then Found(Registry[normalized])
    else if normalized in PrototypeKeys then Inherited(normalized)
    else Found(Fallback(authorId))
  }

  /** An id spelled like an inherited member resolves to no author at all. */
  lemma GetAuthorAsWrittenInherits()
    ensures GetAuthorAsWritten("Constructor") == Inherited("constructor")
  {
    assert Lower("Constructor") == "constructor";
  }

  /** `getAuthor` with the registry consulted for its own entries only. */
  function GetAuthor(authorId: string): (r: Author)
    ensures IsTeamAlias(Lower(authorId)) ==> r == Team
    ensures Lower(authorId) in Registry ==> r == Registry[Lower(authorId)]
    ensures !IsTeamAlias(Lower(authorId)) && Lower(authorId) !in Registry ==>
      r.id == authorId && r.name == authorId && r.username.None? && r.avatarUrl.None?
  {
    var normalized := Lower(authorId);
    if IsTeamAlias(normalized) then Team
    else if normalized in Registry then Registry[normalized]
    else Fallback(authorId)
  }

  /** Away from the inherited names the corrected lookup is the lookup as written. */
  lemma GetAuthorAgrees(authorId: string)
    requires Lower(authorId) !in PrototypeKeys
    ensures GetAuthorAsWritten(authorId) == Found(GetAuthor(authorId))
  {
  }

  /** A known id or team alias resolves to the same author whatever its case. */
  lemma GetAuthorIgnoresCase(authorId: string)
    requires IsTeamAlias(Lower(authorId)) || Lower(authorId) in Registry
    ensures GetAuthor(authorId) == GetAuthor(Lower(authorId))
  {
    LowerIdempotent(authorId);
  }

  /** The test of `getTeamAuthors`: a team member with a (non-empty) username. */
  predicate IsListedMember(a: Author) {
    a.isTeam == Some(true) && a.username.Some? && a.username.value != ""
  }

  /** Team members among `entries`, in order. */
  function TeamAuthors(entries: seq<Author>): (r: seq<Author>)
    ensures forall a :: a in r <==> a in entries && IsListedMember(a)
    ensures SubseqOf(r, entries)
  {
    FilterSubseq(entries, IsListedMember);
    Filter(entries, IsListedMember)
  }

  /** `getTeamAuthors`: the people of the team, without the collective entry. */
  function GetTeamAuthors(): (r: seq<Author>)
    ensures Team !in r
    ensures forall a :: a in r <==> a in Entries && a.isTeam == Some(true) && a.username.Some? && a.username.value != ""
  {
    TeamAuthors(Entries)
  }

  /** With the registry as shipped, the team page lists the two founders in order. */
  lemma TeamAuthorsListed()
    ensures GetTeamAuthors() == [Brett, Brandon]
  {
    var none: seq<Author> := [];
    assert [Team][1..] == none;
    assert Filter([Team], IsListedMember) == none;
    assert [Brandon, Team][1..] == [Team];
    assert Filter([Brandon, Team], IsListedMember) == [Brandon];
    assert Entries[1..] == [Brandon, Team];
  }
}
