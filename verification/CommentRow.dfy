/** Rows of the comment queue (internal/engine/localdb/model.go). */
module CommentRow {

  datatype Status = Pending | Success | Failed

  /** One comment: the discussion root it belongs to, its album (0: none), the mirrored message id
      (0: none), its payload, and a version that stands for updated_at. */
  datatype Row = Row(root: nat, group: int, status: Status, target: nat, text: string, version: nat)
}
