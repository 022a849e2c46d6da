/** The comment records of src/types/comments.ts, as the store holds them. */
module CommentTypes {

  datatype CommentAuthorInfo = CommentAuthorInfo(userId: string, userLogin: string)

  /**
   * A comment document as createComment stores it and getAll returns it:
   * the author stays under `authorInfo`, as in ICreateCommentType, and
   * `sourceId` is the post the comment belongs to. The likes summary is
   * not part of this model.
   */
  datatype Comment = Comment(
    id: string,
    authorInfo: CommentAuthorInfo,
    content: string,
    createdAt: string,
    sourceId: string)

  /** ICreateCommentType: what a caller supplies to create a comment. */
  datatype CreateCommentType = CreateCommentType(content: string, authorInfo: CommentAuthorInfo, sourceId: string)
}
