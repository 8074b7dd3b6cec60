/** The records the three components exchange. */
module BlogModel {
  import opened Wrappers

  /** A blog post as the remote API returns it. `id` is absent until the
      server has assigned one; `dateCreated` is a timestamp in milliseconds. */
  datatype Post = Post(id: Option<int>, username: string, text: string, dateCreated: int)

  /** The value of the form group `{id, username, text}`: what the form
      submits to `add` and `update`. It has no `dateCreated`. */
  datatype BlogData = BlogData(id: Option<int>, username: string, text: string)

  /** A notification handed to the toast service: its kind, text and title. */
  datatype ToastKind = SuccessToast | ErrorToast
  datatype Toast = Toast(kind: ToastKind, message: string, title: string)
}
