/** The post record (`app/models/post.py`) and its visibility rule. */
module Posts {
  import opened Common
  import opened Users

  /** A row of the post table. `isDeleted` is the soft-delete flag: a deleted
      post stays in the table. `id`, `createdAt` and `updatedAt` are assigned on
      insert (0 until then). */
  datatype Post = Post(
    id: nat,
    title: string,
    content: string,
    isPublic: bool,
    createdAt: nat,
    updatedAt: nat,
    userId: nat,
    isDeleted: bool)

  /** `Post(title, content, user_id, is_public=True)`; a new post is never deleted. */
  function NewPost(title: string, content: string, userId: nat, isPublic: bool := true): (p: Post)
    ensures p.title == title && p.content == content && p.userId == userId
    ensures p.isPublic == isPublic
    ensures !p.isDeleted
  {
    Post(0, title, content, isPublic, 0, 0, userId, false)
  }

  /** Every key a post dictionary can carry. */
  const PostKeys: set<string> :=
    {"id", "title", "content", "created_at", "updated_at", "user_id", "author_username", "is_public", "is_deleted"}

  /** `Post.to_dict(include_private)`, with `author` the user the post's
      `user_id` refers to, if any. A deleted post is suppressed unless private
      data is requested; `is_public` is never consulted for inclusion. */
  function PostToDict(p: Post, author: Option<User>, includePrivate: bool): (r: Option<Dict>)
    ensures r.None? <==> p.isDeleted && !includePrivate
    ensures r.Some? ==> r.value.Keys <= PostKeys
    ensures r.Some? ==> "id" in r.value && r.value["id"] == Int(p.id)
    ensures r.Some? ==> "title" in r.value && r.value["title"] == Str(p.title)
    ensures r.Some? ==> "content" in r.value && r.value["content"] == Str(p.content)
    ensures r.Some? ==> "created_at" in r.value && r.value["created_at"] == Time(p.createdAt)
    ensures r.Some? ==> "updated_at" in r.value && r.value["updated_at"] == Time(p.updatedAt)
    ensures r.Some? ==> "user_id" in r.value && r.value["user_id"] == Int(p.userId)
    ensures r.Some? ==> "author_username" in r.value
    ensures r.Some? ==> (r.value["author_username"] == Null <==> author.None?)
    ensures r.Some? && author.Some? ==> r.value["author_username"] == Str(author.value.username)
    ensures r.Some? ==> ("is_public" in r.value <==> includePrivate) && ("is_deleted" in r.value <==> includePrivate)
    ensures r.Some? && includePrivate ==>
      r.value["is_public"] == Bool(p.isPublic) && r.value["is_deleted"] == Bool(p.isDeleted)
  {
    if p.isDeleted && !includePrivate then None
    else
      var core := map[
        "id" := Int(p.id), "title" := Str(p.title), "content" := Str(p.content),
        "created_at" := Time(p.createdAt), "updated_at" := Time(p.updatedAt),
        "user_id" := Int(p.userId),
        "author_username" := if author.Some? then Str(author.value.username) else Null];
      if includePrivate then
        Some(core["is_public" := Bool(p.isPublic)]["is_deleted" := Bool(p.isDeleted)])
      else Some(core)
  }

  /** The visibility rule never looks at `is_public`: a private post that is
      not deleted is rendered for any viewer, exactly as a public one would be. */
  lemma PostToDictIgnoresIsPublic(p: Post, author: Option<User>, includePrivate: bool)
    requires !p.isDeleted
    ensures PostToDict(p, author, includePrivate).Some?
    ensures PostToDict(p.(isPublic := !p.isPublic), author, false) == PostToDict(p, author, false)
  {
  }
}
