/** The flat timeline of an issue: comments, which may reply to one another, and activities. */
module Timeline {
  import opened Text

  datatype Kind = Comment | Activity

  datatype Entry = Entry(
    kind: Kind,
    id: string,
    parentId: Option<string>,
    createdAt: int,
    actorType: string,
    actorId: string,
    action: Option<string>,
    coalescedCount: Option<nat>,
    content: string
  )

  /** JavaScript truthiness of `e.parent_id`. */
  predicate HasParent(e: Entry) {
    e.parentId.Some? && e.parentId.value != ""
  }

  function CommentIds(es: seq<Entry>): set<string> {
    set e | e in es && e.kind.Comment? :: e.id
  }

  function Ids(es: seq<Entry>): (ids: seq<string>)
    ensures |ids| == |es|
    ensures forall i :: 0 <= i < |es| ==> ids[i] == es[i].id
  {
    seq(|es|, i requires 0 <= i < |es| => es[i].id)
  }

  ghost predicate UniqueComments(es: seq<Entry>) {
    forall i, j :: 0 <= i < j < |es| && es[i].kind.Comment? && es[j].kind.Comment? ==> es[i].id != es[j].id
  }

  lemma SameCommentSameEntry(es: seq<Entry>, a: Entry, b: Entry)
    requires UniqueComments(es) && a in es && b in es
    requires a.kind.Comment? && b.kind.Comment? && a.id == b.id
    ensures a == b
  {
  }
}
