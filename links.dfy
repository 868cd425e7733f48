/** The navigation links the layouts render: each has a path, a caption, an
    active flag and a hidden flag, and only the links that are not hidden
    are rendered, in their listed order. */
module Links {
  import opened Common
  import opened Seqs
  import opened JsNumber

  datatype NavLink = NavLink(path: string, caption: string, active: bool, hidden: bool)

  /** The signed-in user as the layouts select them: `{id, name}`. */
  datatype Viewer = Viewer(id: int, name: string)

  predicate Shown(l: NavLink) {
    !l.hidden
  }

  /** `links.filter(link => !link.hidden)` (VisibleMember and VisibleCount
      say which links remain, VisibleConcat that their order is kept). */
  function Visible(links: seq<NavLink>): seq<NavLink> {
    Filter(links, Shown)
  }

  /** Exactly the links that are not hidden remain. */
  lemma VisibleMember(links: seq<NavLink>, l: NavLink)
    ensures l in Visible(links) <==> l in links && !l.hidden
  {
    FilterMember(links, Shown, l);
  }

  /** A shown link occurs as often as it is listed, a hidden one not at all. */
  lemma VisibleCount(links: seq<NavLink>, l: NavLink)
    ensures multiset(Visible(links))[l] == if l.hidden then 0 else multiset(links)[l]
  {
    FilterCount(links, Shown, l);
  }

  /** Removing hidden links keeps the order: a list made of two parts shows
      the shown links of the first part before those of the second. */
  lemma VisibleConcat(a: seq<NavLink>, b: seq<NavLink>)
    ensures Visible(a + b) == Visible(a) + Visible(b)
  {
    FilterConcat(a, b, Shown);
  }

  /** One link is shown alone if it is not hidden and not at all otherwise. */
  lemma VisibleOne(l: NavLink)
    ensures Visible([l]) == if l.hidden then [] else [l]
  {
    FilterSingleton(l, Shown);
  }

  /** The first link is shown first, if it is shown at all. */
  lemma VisibleCons(l: NavLink, rest: seq<NavLink>)
    ensures Visible([l] + rest) == Visible([l]) + Visible(rest)
  {
    VisibleConcat([l], rest);
  }

  /** Four links are shown one by one, in their order. */
  lemma VisibleFour(a: NavLink, b: NavLink, c: NavLink, d: NavLink)
    ensures Visible([a, b, c, d]) == Visible([a]) + Visible([b]) + Visible([c]) + Visible([d])
  {
    VisibleConcat([a, b], [c, d]);
    VisibleConcat([a], [b]);
    VisibleConcat([c], [d]);
    assert [a, b] + [c, d] == [a, b, c, d];
    assert [a] + [b] == [a, b] && [c] + [d] == [c, d];
  }

  /** `${user?.id}`: the id in decimal, or `undefined` without a user. */
  function IdText(user: Option<Viewer>): string {
    if user.Some? then IntToString(user.value.id) else "undefined"
  }
}
