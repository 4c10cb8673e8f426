/**
 The records the resolvers and loaders work on. Only the fields the core reads
 or writes are kept; timestamps are integers (milliseconds), as the feed query
 compares them directly.
 */
module Entities {

  /** A row of the `user` table. `password` holds the hashed credential. */
  datatype User = User(id: int, username: string, email: string, password: string)

  /** A row of the `post` table. `points` is the aggregate score of its votes. */
  datatype Post = Post(id: int, title: string, text: string, authorId: int, points: int, createdAt: int)

  /** The composite primary key of the `updoot` table. */
  datatype VoteKey = VoteKey(userId: int, postId: int)

  /** A row of the `updoot` table: one user's vote on one post. */
  datatype Updoot = Updoot(userId: int, postId: int, value: int) {
    function Key(): VoteKey
    {
      VoteKey(userId, postId)
    }
  }
}
