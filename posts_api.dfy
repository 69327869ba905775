/**
 * The frontend API client's shaping of backend posts: every call answers with the backend's
 * HTTP status and, for posts, the backend object extended with a `user` copied from its
 * author and with like/comment fields the backend does not send.
 */
module PostsApi {
  import opened Wrappers

  datatype Author = Author(id: int, username: string, email: string)

  /** `PostResponse`: a post as the backend sends it. */
  datatype PostResponse = PostResponse(
    id: int, content: string, book: Option<int>, image: Option<string>, author: Author, createdAt: string)

  datatype PostUser = PostUser(id: int, username: string, avatar: Option<string>)

  /** `Post`: the backend fields (`...post`) plus the ones the client adds. */
  datatype Post = Post(response: PostResponse, user: PostUser, likesCount: int, commentsCount: int, isLiked: bool)

  /** `ApiResponse<T>`: the data and the upstream status. */
  datatype ApiResponse<T> = ApiResponse(data: T, status: int)

  /** The post's `user` is its author's id and name, without an avatar. */
  predicate MirrorsAuthor(post: Post) {
    post.user == PostUser(post.response.author.id, post.response.author.username, None)
  }

  /** The object literal every post method builds from a backend post. */
  function Shape(p: PostResponse, likes: int, comments: int, liked: bool): Post {
    Post(p, PostUser(p.author.id, p.author.username, None), likes, comments, liked)
  }

  /** `listPosts`: one shaped post per backend post, in the backend's order, with zero counts. */
  function ListPosts(resp: ApiResponse<seq<PostResponse>>): (r: ApiResponse<seq<Post>>)
    ensures r.status == resp.status && |r.data| == |resp.data|
    ensures forall i :: 0 <= i < |resp.data| ==>
              r.data[i].response == resp.data[i] && MirrorsAuthor(r.data[i]) &&
              r.data[i].likesCount == 0 && r.data[i].commentsCount == 0 && !r.data[i].isLiked
  {
    ApiResponse(seq(|resp.data|, i requires 0 <= i < |resp.data| => Shape(resp.data[i], 0, 0, false)), resp.status)
  }

  function Originals(posts: seq<Post>): (r: seq<PostResponse>)
    ensures |r| == |posts| && forall i :: 0 <= i < |posts| ==> r[i] == posts[i].response
  {
    seq(|posts|, i requires 0 <= i < |posts| => posts[i].response)
  }

  /** Dropping the added fields from the listed posts gives back the backend list exactly. */
  lemma ListPostsKeepsBackendList(resp: ApiResponse<seq<PostResponse>>)
    ensures Originals(ListPosts(resp).data) == resp.data
  {
    var o := Originals(ListPosts(resp).data);
    assert |o| == |resp.data|;
    assert forall i :: 0 <= i < |o| ==> o[i] == resp.data[i];
  }

  /** `createPost` */
  function CreatePost(resp: ApiResponse<PostResponse>): (r: ApiResponse<Post>)
    ensures r.status == resp.status && r.data.response == resp.data && MirrorsAuthor(r.data)
    ensures r.data.likesCount == 0 && r.data.commentsCount == 0 && !r.data.isLiked
  {
    ApiResponse(Shape(resp.data, 0, 0, false), resp.status)
  }

  /** `updatePost` */
  function UpdatePost(resp: ApiResponse<PostResponse>): (r: ApiResponse<Post>)
    ensures r.status == resp.status && r.data.response == resp.data && MirrorsAuthor(r.data)
    ensures r.data.likesCount == 0 && r.data.commentsCount == 0 && !r.data.isLiked
  {
    ApiResponse(Shape(resp.data, 0, 0, false), resp.status)
  }

  /** `likePost`: the post comes back marked as liked. */
  function LikePost(resp: ApiResponse<PostResponse>): (r: ApiResponse<Post>)
    ensures r.status == resp.status && r.data.response == resp.data && MirrorsAuthor(r.data)
    ensures r.data.isLiked && r.data.likesCount == 0 && r.data.commentsCount == 0
  {
    ApiResponse(Shape(resp.data, 0, 0, true), resp.status)
  }

  /** `unlikePost`: the post comes back marked as not liked. */
  function UnlikePost(resp: ApiResponse<PostResponse>): (r: ApiResponse<Post>)
    ensures r.status == resp.status && r.data.response == resp.data && MirrorsAuthor(r.data)
    ensures !r.data.isLiked && r.data.likesCount == 0 && r.data.commentsCount == 0
  {
    ApiResponse(Shape(resp.data, 0, 0, false), resp.status)
  }

  /** Liking and unliking differ only in `is_liked`. */
  lemma LikeAndUnlikeDifferInFlagOnly(resp: ApiResponse<PostResponse>)
    ensures LikePost(resp).data.(isLiked := false) == UnlikePost(resp).data
    ensures LikePost(resp).status == UnlikePost(resp).status
  {
  }

  /** A likes or comments sub-request: failed (caught as `{count: 0}`), or a body with a possibly missing `count`. */
  datatype CountReply = CountFailed | CountBody(count: Option<int>)

  /** `reply.data.count || 0` */
  function CountOf(reply: CountReply): (n: int)
    ensures reply.CountFailed? || reply.count.None? ==> n == 0
    ensures reply.CountBody? && reply.count.Some? ==> n == reply.count.value
  {
    if reply.CountBody? && reply.count.Some? && reply.count.value != 0 then reply.count.value else 0
  }

  /** `getPost`: the counts come from the two sub-requests, each falling back to 0. */
  function GetPost(resp: ApiResponse<PostResponse>, likes: CountReply, comments: CountReply): (r: ApiResponse<Post>)
    ensures r.status == resp.status && r.data.response == resp.data && MirrorsAuthor(r.data) && !r.data.isLiked
    ensures r.data.likesCount == CountOf(likes) && r.data.commentsCount == CountOf(comments)
  {
    ApiResponse(Shape(resp.data, CountOf(likes), CountOf(comments), false), resp.status)
  }

  /** A failed sub-request reads the same as a reply counting nothing. */
  lemma FailedCountIsZero(resp: ApiResponse<PostResponse>, comments: CountReply)
    ensures GetPost(resp, CountFailed, comments) == GetPost(resp, CountBody(Some(0)), comments)
    ensures GetPost(resp, CountFailed, comments) == GetPost(resp, CountBody(None), comments)
  {
  }

  /** `deleteBook`, `deletePost`, `deleteComment`: no data (`undefined`), the upstream status. */
  function DeleteResult(status: int): (r: ApiResponse<Option<()>>)
    ensures r.data.None? && r.status == status
  {
    ApiResponse(None, status)
  }
}
