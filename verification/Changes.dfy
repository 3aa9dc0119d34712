/** What happens to the documents of one collection: writes and deletions, and what they leave. */
module Changes {
  import opened Json
  import opened Sequences

  datatype Change = Write(id: string, doc: Fields) | Erase(target: string)

  /** The documents after the changes. */
  function DocumentsAfter(cs: seq<Change>): map<string, Fields> {
    if cs == [] then map[] else Changed(DocumentsAfter(Front(cs)), Last(cs))
  }

  function Changed(docs: map<string, Fields>, c: Change): map<string, Fields> {
    match c
    case Write(id, doc) => docs[id := doc]
    case Erase(id) => docs - {id}
  }

  function TargetOf(c: Change): string {
    match c
    case Write(id, _) => id
    case Erase(id) => id
  }

  predicate NeverOverwrites(cs: seq<Change>) {
    cs == [] || (NeverOverwrites(Front(cs)) && (Last(cs).Write? ==> Last(cs).id !in DocumentsAfter(Front(cs))))
  }

  lemma DocumentsOneMore(cs: seq<Change>, c: Change)
    ensures DocumentsAfter(cs + [c]) == Changed(DocumentsAfter(cs), c)
  {
    SnocFront(cs, c);
  }
}
