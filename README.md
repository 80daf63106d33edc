# Photos slice of the post store

This project models the "photos" slice of the app's store. The slice holds two
fields. `recentPhoto` is the URI of the last photo taken with the camera, or
null. `posts` is the ordered list of the user's posts. Three reducers change
the slice:

- `setRecentPhoto` overwrites the photo slot with the payload.
- `createPost` builds a post from the payload's `images` and `caption`. It
  takes the id from the text of one clock reading and `createdAt` from a second
  reading, then appends the post to the end of `posts`.
- `deletePost` keeps every post whose id differs from the payload, in order.

Two modules make up the model:

- `PhotoSlice` (`photo_slice.dfy`) holds the `Post` datatype and the class
  `PhotoStore`, whose fields are the slice state. Its constructor is the
  initial state, and each reducer is a method that updates the fields in
  place. The filter used by `deletePost` is the function `WithoutId`. The
  lemmas beside it state what the filter keeps, what it drops, and how it
  combines with itself and with appending.
- `NumberText` (`number_text.dfy`) models `Number.prototype.toString()` on an
  integral clock reading, which is how the post id is produced. It also holds a
  parser and round-trip lemmas in both directions. These show that distinct
  clock readings give distinct ids.

The two readings of `Date.now()` are method parameters (`idReading`,
`createdReading`). Nothing relates them, so they may differ.

The code does not validate or deduplicate:

- `createPost` does not reject an empty `images` list.
- Ids are not guaranteed unique. Two posts created in the same millisecond get
  the same id.
- `deletePost` removes every post carrying the id, not at most one.
  `DeleteUniqueShrinksByOne` shows it removes exactly one post only when the
  ids are unique.

## Model

| member | source | states |
|---|---|---|
| `PhotoSlice.PhotoStore.constructor` | store/photoSlice.ts:15-18 | the initial state has no recent photo and an empty list of posts |
| `PhotoSlice.PhotoStore.SetRecentPhoto` | store/photoSlice.ts:24-26 | the photo slot becomes the payload, including an absent one; `posts` is unchanged |
| `PhotoSlice.PhotoStore.CreatePost` | store/photoSlice.ts:27-35 | `posts` grows by exactly one and the old posts are an unchanged prefix; the last post has the payload's `images` and `caption`, `createdAt` is the second clock reading, and its id parses back to the first reading; `recentPhoto` is unchanged; no check on `images` |
| `PhotoSlice.PhotoStore.DeletePost` | store/photoSlice.ts:37-40 | `posts` becomes the old posts filtered by id, no remaining post carries the id, and `recentPhoto` is unchanged |
| `PhotoSlice.WithoutId` | store/photoSlice.ts:39 | the filtered list is never longer than the input |
| `PhotoSlice.WithoutIdMembers` | store/photoSlice.ts:39 | a post is in the result exactly when it was in the input and its id differs from the deleted one |
| `PhotoSlice.WithoutIdRemovesAll` | store/photoSlice.ts:39 | no post in the result carries the deleted id |
| `PhotoSlice.WithoutIdIsSubsequence` | store/photoSlice.ts:39 | the result is the input at a strictly increasing list of positions, and those positions are exactly the ones whose post has a different id, so every other post stays in its original relative order |
| `PhotoSlice.WithoutIdAbsent` | store/photoSlice.ts:39 | deleting an id that no post carries leaves the posts unchanged |
| `PhotoSlice.WithoutIdIdempotent` | store/photoSlice.ts:39 | deleting the same id twice gives the same posts as deleting it once |
| `PhotoSlice.WithoutIdLength` | store/photoSlice.ts:39 | the result is shorter than the input by the number of posts that carry the id |
| `PhotoSlice.DeleteUniqueShrinksByOne` | store/photoSlice.ts:37-40 | when ids are unique and the id is present, deletion removes exactly one post |
| `PhotoSlice.WithoutIdAppend` | store/photoSlice.ts:39 | filtering a concatenation is the concatenation of the filtered parts |
| `PhotoSlice.WithoutIdCommutes` | store/photoSlice.ts:37-40 | two deletions give the same posts in either order |
| `PhotoSlice.DeleteAfterCreate` | store/photoSlice.ts:27-40 | deleting the id of a just-appended post gives what deleting that id gave before the append |
| `PhotoSlice.NewPostIdsDiffer` | store/photoSlice.ts:29-34 | two new posts have equal ids exactly when their first clock readings are equal |
| `PhotoSlice.NewPost` | store/photoSlice.ts:29-34 | the new post's `images` and `caption` are the payload's and `createdAt` is the second clock reading; its id is well-formed number text that parses back to the first reading |
| `NumberText.NumberToString` | store/photoSlice.ts:30 | the id text of a clock reading is well-formed number text: a '-' exactly when the reading is negative, then canonical decimal digits |
| `NumberText.Decimal` | store/photoSlice.ts:30 | a reading's digits are non-empty decimal digits with no leading zero, and "0" only for zero |
| `NumberText.ParseNumberOfNumberToString` | store/photoSlice.ts:30 | the id text of any integer reading is well-formed number text and parses back to that reading |
| `NumberText.NumberToStringOfParseNumber` | store/photoSlice.ts:30 | every well-formed number text is the rendering of the value it parses to |
| `NumberText.NumberToStringInjective` | store/photoSlice.ts:30 | two readings render to the same id text exactly when they are equal |

## Left out

- `store/store.ts` only registers the reducer with the Redux Toolkit store. It has no logic of its own.
- Redux Toolkit machinery is not modelled: `createSlice`, action creators, Immer drafts, and snapshot production and subscription. Each reducer is a direct update of the store object's fields.
- `Date.now()` is not modelled as a clock. Its two readings are parameters.
- Ids are written as plain decimal digits. JavaScript switches to exponent notation at 10^21 and loses integer precision above 2^53. Clock readings in milliseconds stay far below both.
- Payloads are typed. `setRecentPhoto` takes an optional string, and `createPost` takes a list of strings plus an optional caption. The untyped `action.payload` of the source could carry other values, such as a missing `images` field. The model does not cover those.
- Reading the posts is not an operation of the slice: screens select `state.photos.posts` (app/(tabs)/posts.tsx:27-29). In the model, callers read the `posts` field, and `seq` values cannot alias.
- app/(tabs)/post.tsx:82-88 builds posts with name, description and price fields. This slice's `Post` lacks them, so they are not modelled.
- `app/(tabs)/post.tsx` dispatches an `addPost` action, but this slice does not define one. That screen is not part of this model.
- UI screens, the camera, media-library permissions and image pickers are platform I/O. They are not part of this model.
