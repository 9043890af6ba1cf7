/** Issues and their activity, as the tracker stores them. */
module IssueData {
  import opened Prelude

  datatype Mark = Mark(who: string, at: int)

  datatype Issue = Issue(title: string, description: string, status: string, priority: string, labels: seq<string>,
                         assignee: Option<string>, blockedBy: seq<int>, creator: string,
                         createdAt: int, updatedAt: int, version: nat, hidden: Option<Mark>)

  datatype Comment = Comment(title: Option<string>, body: string)

  datatype Kind = Created | Updated | Commented | Linked | Unlinked | Hid | Restored

  // One activity row. `title` and `description` are what a create or update sent for those fields; `about` is the
  // issue at the other end of a link, or the comment that was hidden or restored.
  datatype Event = Event(issue: int, kind: Kind, actor: string, at: int, title: Option<string>,
                         description: Option<string>, comment: Option<Comment>, about: Option<int>, hidden: Option<Mark>)

  type Issues = map<int, Issue>

  // Activity in id order: the row at index i has id i + 1, and rows are never deleted.
  type Activity = seq<Event>
}
