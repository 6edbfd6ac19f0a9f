/** The rendered parts of a transcript entry. JSON payloads are opaque text. */
module MessageParts {
  import opened Common

  type Json = string

  datatype NoticeLevel = Info | Warning

  datatype DiffStat = DiffStat(path: string, additions: nat, deletions: nat)

  datatype MessagePart =
    | Text(id: string, text: string)
    | Commentary(id: string, text: string)
    | Notice(id: string, level: NoticeLevel, message: string)
    | Tool(id: string, call: Json, isError: bool, resolved: bool, output: Option<string>, diff: Option<Json>,
           outputRef: Option<string>, outputBytes: Option<nat>, diffRef: Option<string>,
           diffStats: Option<seq<DiffStat>>)
    | Input(id: string, requestId: string, questions: Json, resolved: bool)
    | Error(id: string, message: string)
  {
    predicate Textual() {
      Text? || Commentary?
    }
  }

  /** The two parts are text bodies of the same kind. */
  predicate SameTextKind(p: MessagePart, q: MessagePart) {
    (p.Text? && q.Text?) || (p.Commentary? && q.Commentary?)
  }
}
