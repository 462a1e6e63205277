# Cooking forum: votes, posts and their rules, in Dafny

This project models the core of a cooking forum. The forum has an Express and
Mongoose server and a React client. The core is the **voting state machine**
and the small rules around it:

- **The votes collection.** Each (user, post) pair holds at most one document, valued +1 or -1.
- **The server's vote endpoint.** It deletes, overwrites or inserts that document, then recounts the post's `upvotes` and `downvotes`.
- **The client's ±1 rule.** The in-memory mock store (`voteOnPost`) and the optimistic `VoteButtons` component both adjust the two counters by one from the previous vote instead of recounting. The main theorem is that these ±1 steps land exactly on the server's recount.
- **The toggle lives only on the client.** Clicking the selected button again sends 0. The server itself does not toggle: sending the same value twice is the same as sending it once (`VoteModel.SetVoteIdempotent`). Sending +1 twice to the server keeps a single upvote; only the client turns a second click into 0.
- **The rest of the server routes:**
  - the paginated newest-first listing with derived `commentCount` and `userVote`;
  - author-gated update and delete, where delete cascades to the post's comments and votes;
  - comments, reputation, the profile update, register, login and `/me`.
- **The rest of the client:**
  - the mock store's create, update, delete and comment operations;
  - the home page's search filter and pager;
  - the post form's tag editor and submit guard.

The server's database is one object, `ServerStore.Db`. It holds the users, posts, comments and votes as sequences, plus a counter that hands out fresh ids. Its `Valid()` invariant says:

- ids and emails are unique;
- the votes collection satisfies the schema: values ±1, one document per pair;
- every vote and comment refers to an existing post;
- every post's cached counters equal the recount;
- every stored post passes the schema: required fields present, title and tags trimmed.

Each handler that changes the database is a method that keeps `Valid()`. It states its whole new state in terms of the pure functions of `VoteModel`, `PostModel` and `PostRoutes`. The properties are proved about those functions.

Modules, in dependency order:

| module | file | models |
|---|---|---|
| Wrappers | wrappers.dfy | Option and Result |
| Text | text.dfy | `trim`, `toLowerCase`, `includes`, truthiness of strings |
| Search | search.dfy | `find`/`findIndex`, `filter`, `splice` |
| Paging | paging.dfy | skip/limit windows and `Math.ceil` page counts |
| Sorting | sorting.dfy | `.sort({ field: ±1 })` |
| VoteModel | vote_model.dfy | server/models/Vote.js and the vote transitions |
| Tally | tally.dfy | the client ±1 rule and the click toggle |
| PostModel | post_model.dfy | server/models/Post.js and comment counting |
| ServerStore | server_store.dfy | the database and its consistency |
| PostRoutes | post_routes.dfy | server/routes/posts.js |
| UserRoutes | user_routes.dfy | server/routes/users.js |
| AuthRoutes | auth_routes.dfy | server/routes/auth.js |
| MockApi | mock_api.dfy | the mock store of src/services/api.js |
| VoteButtons | vote_buttons.dfy | src/components/VoteButtons.jsx |
| HomePage | home_page.dfy | src/pages/HomePage.jsx |
| CreatePostPage | create_post_page.dfy | src/pages/CreatePostPage.jsx |

## Model

| member | source | states |
|---|---|---|
| Text.TrimIsTrimmed | server/models/Post.js:4-8 | a trimmed string has no white space at either end |
| Text.TrimCutsOnlySpace | server/models/Post.js:4-8 | the trimmed string is a middle slice of the input, and everything cut from either side is white space |
| Text.TrimOfTrimmed | server/models/Post.js:18-23 | trimming a string that is already trimmed changes nothing |
| Text.TrimEmptyIff | src/pages/CreatePostPage.jsx:60 | a string trims to empty exactly when every character is white space |
| Text.ToLower | src/pages/HomePage.jsx:42 | lowercasing keeps the length and lowercases each character |
| Text.ContainsIff | src/pages/HomePage.jsx:45-50 | `includes` holds exactly when the term occurs at some offset |
| Text.OrNull | server/routes/posts.js:106 | `s \|\| null` is null exactly for a falsy string and otherwise the string itself |
| Text.OrElse | server/routes/posts.js:141-142 | `s \|\| fallback` is the string when truthy and the fallback otherwise |
| Paging.CeilDiv | server/routes/posts.js:47 | the page count is the least number of pages of that size holding all items |
| Paging.Window | server/routes/posts.js:17-20 | skip/limit returns item skip+k at position k, and exactly min(limit, remaining) items |
| Paging.PageOf | server/routes/posts.js:15 | page p of size l starts at offset (p-1)*l |
| Paging.FirstPagesArePrefix | server/routes/posts.js:15-20 | reading pages 1..n in order yields the first n*limit items |
| Paging.PagesCoverAll | server/routes/posts.js:46-47 | pages 1..ceil(total/limit) together show every item exactly once, in order |
| Paging.PageBeyondLastIsEmpty | server/routes/posts.js:46-47 | every page after the last one is empty |
| Sorting.SortBy | server/routes/posts.js:18 | the sorted result is ordered by the key and is a permutation of the input |
| Sorting.SortByKeepsElements | server/routes/posts.js:18 | sorting keeps the length and exactly the same elements |
| Search.FindIndex | src/services/api.js:163 | the result is the first position that matches, and None exactly when nothing matches |
| Search.Filter | src/services/api.js:235 | the result holds exactly the matching elements of the input |
| Search.FilterConcat | src/services/api.js:235 | filtering distributes over concatenation, so kept elements stay in their relative order |
| Search.FilterKeepsAll | src/pages/HomePage.jsx:41-53 | filtering when every element matches returns the input unchanged |
| Search.FilterDistinct | src/pages/CreatePostPage.jsx:28 | filtering a list without repeats gives a list without repeats |
| Search.RemoveAt | src/services/api.js:223 | `splice(i, 1)` drops exactly position i and keeps the rest in order |
| VoteModel.FindVote | server/routes/posts.js:262-265 | the lookup returns the first document of the (user, post) pair, and None exactly when the pair has none |
| VoteModel.LookupUnique | server/models/Vote.js:26 | under the unique index, a lookup finds the pair's one document wherever it is stored |
| VoteModel.VotesExcept | server/routes/posts.js:262-285 | the documents of the other pairs all come from the collection and none belongs to the pair |
| VoteModel.SetVoteOthersUntouched | server/routes/posts.js:262-285 | a vote leaves the documents of every other (user, post) pair exactly as they were, in order |
| VoteModel.SetVoteLookup | server/routes/posts.js:262-285 | after a vote the pair holds the submitted value (no document for 0), and every other pair keeps its value |
| VoteModel.SetVoteUnique | server/models/Vote.js:26 | every transition keeps at most one document per (user, post) pair |
| VoteModel.SetVoteWellFormed | server/models/Vote.js:14-18 | with an accepted value, no transition stores 0 or anything outside {-1, 1} |
| VoteModel.SetVoteCounts | server/routes/posts.js:288-300 | the recount of value x on a post loses the user's old vote if it was x and gains the new one if it is x; other posts' counts are unchanged |
| VoteModel.SetVoteIdempotent | server/routes/posts.js:267-275 | submitting the same value twice equals submitting it once: the server does not toggle |
| VoteModel.SetVoteKeepsOrTargets | server/routes/posts.js:262-285 | each document after a vote belongs to the voted post or was already stored |
| VoteModel.VotesNotOn | server/routes/posts.js:180 | the cascade keeps only documents of other posts, all taken from the collection |
| VoteModel.VotesNotOnCounts | server/routes/posts.js:180 | after the cascade the deleted post counts zero votes and every other post keeps its counts |
| VoteModel.VotesNotOnWellFormed | server/routes/posts.js:180 | the cascade keeps the votes collection well formed |
| VoteModel.TallyDifferenceIsNetScore | server/routes/users.js:27 | because only ±1 is stored, upvotes minus downvotes is the sum of the post's vote values |
| Tally.IncrementalVote | src/services/api.js:282-294 | the ±1 rule sets the own vote (null for 0) and keeps upvotes − [vote=1] and downvotes − [vote=-1] |
| Tally.IncrementalIdempotent | src/services/api.js:282-294 | applying the same value twice under the ±1 rule equals applying it once |
| Tally.Recount | server/routes/posts.js:288-300 | the recounted tallies are never negative |
| Tally.IncrementalMatchesRecount | src/components/VoteButtons.jsx:44-56 | starting from the server's numbers, the client's ±1 step gives exactly the server's recount after the same vote, for every move among none, +1 and -1 |
| Tally.ToggledValue | src/components/VoteButtons.jsx:41 | the sent value is 0 exactly when the clicked direction is already selected, and otherwise the clicked value |
| Tally.ClickTwice | src/components/VoteButtons.jsx:40-56 | two clicks on the same button restore the starting (vote, up, down), except from the opposite vote, where they end with no vote and that vote's count removed |
| Tally.ClickMatchesServer | src/components/VoteButtons.jsx:41-59 | a click on the server's numbers shows what the server will store after receiving the toggled value |
| Tally.UpUpDownScenario | src/components/VoteButtons.jsx:40-56 | up, up, down from no votes goes 1 up, then nothing, then 1 down; sent straight to the server, a second +1 leaves the upvote in place |
| Tally.ScoreIsNetScore | src/components/VoteButtons.jsx:96 | the displayed score on the server's numbers is the sum of the stored values |
| PostModel.TrimAll | server/models/Post.js:18-23 | each tag goes through `trim`, and the number of tags is unchanged |
| PostModel.BuildPost | server/models/Post.js:4-35 | a post is saved exactly when the trimmed title and the content are non-empty; it is stored trimmed, with the given image (null by default) and zero counters |
| PostModel.CommentsOn | server/routes/posts.js:194 | exactly the comments on the post |
| PostModel.CommentCountIsListed | server/models/Post.js:47-52 | `commentCount` equals the number of comments whose post is this post |
| PostModel.CommentCountAppend | server/routes/posts.js:221-227 | a new comment raises the count of its own post by one and of no other post |
| PostModel.CommentsNotOn | server/routes/posts.js:179 | the cascade keeps exactly the comments on other posts |
| PostModel.CommentsNotOnCount | server/routes/posts.js:179 | after the cascade the deleted post has no comments and every other post keeps its count |
| PostModel.CommentCountConcat | server/models/Post.js:47-52 | comment counts add up over concatenation |
| PostModel.CommentsByCount | server/routes/users.js:20 | the number of comments a user wrote is 0 exactly when none is theirs |
| ServerStore.FindPost | server/routes/posts.js:129 | `findById` finds a post with that id, and None exactly when there is none |
| ServerStore.FindPostUnique | server/routes/posts.js:129 | with unique ids, the lookup finds the one post with that id |
| ServerStore.CountNotReferenced | server/models/Post.js:28-35 | a post nobody voted on counts zero up- and downvotes, matching the defaults |
| PostRoutes.NewestFirst | server/routes/posts.js:17-18 | all posts, as a permutation, in non-increasing creation time |
| PostRoutes.ViewOfMeaning | server/routes/posts.js:25-43 | `commentCount` is the number of the post's comments; `userVote` is the requester's stored value, or null without a vote or without a requester |
| PostRoutes.ListPosts | server/routes/posts.js:13-53 | the listing is page `page` of the newest-first posts with derived fields; totalPages is ceil(total/limit); currentPage echoes the page |
| PostRoutes.ListingNewestFirst | server/routes/posts.js:17-20 | every listed page is ordered newest first |
| PostRoutes.ListPostsDefaults | server/routes/posts.js:13-14 | a missing, unparsable or zero page and limit behave exactly like page 1 and limit 10 |
| PostRoutes.ListingIsPage | server/routes/posts.js:15-20 | the listed posts are the (page-1)*limit offset window of the newest-first order |
| PostRoutes.ListingPagesCoverAll | server/routes/posts.js:46-47 | reading pages 1..totalPages shows every post exactly once |
| PostRoutes.ListingOfFive | server/routes/posts.js:13-53 | five posts at limit 2: page 1 holds the two newest, there are 3 pages, page 3 holds the oldest alone |
| PostRoutes.OffsetKeepsOrder | server/routes/posts.js:19-20 | a window taken at an offset from a newest-first list is itself newest first |
| PostRoutes.GetPost | server/routes/posts.js:63-87 | 404 exactly for an unknown id; otherwise that post with its derived fields |
| PostRoutes.ListComments | server/routes/posts.js:194-199 | the post's comments, as a permutation, oldest first |
| PostRoutes.ListCommentsExactly | server/routes/posts.js:194 | every listed comment is on the post, and every comment on the post is listed |
| PostRoutes.AddPostConsistent | server/routes/posts.js:101-109 | adding a valid post with a fresh id and zero counters keeps the database consistent |
| PostRoutes.ReplacePostConsistent | server/routes/posts.js:141-146 | replacing a post by a valid one with the same id and counters keeps the database consistent |
| PostRoutes.DeletePostConsistent | server/routes/posts.js:176-180 | removing a post with its comments and votes keeps the database consistent, with no dangling reference |
| PostRoutes.CommentsNotOnIdsUnique | server/routes/posts.js:179 | comment ids stay unique after the cascade |
| PostRoutes.AddCommentConsistent | server/routes/posts.js:221-227 | a comment with a fresh id on an existing post keeps the database consistent |
| PostRoutes.CastVoteConsistent | server/routes/posts.js:262-300 | a vote transition followed by the recount of the post keeps the database consistent, tallies included |
| PostRoutes.CreatePost | server/routes/posts.js:97-119 | a rejected post gives 500 with nothing stored; otherwise exactly one post, built with tags defaulting to [] and image to null, is added and its id returned with 201 |
| PostRoutes.Revise | server/routes/posts.js:141-146 | title, content and tags keep their old values when the new ones are falsy, and updatedAt is set; the save fails exactly when a truthy title trims to empty; a revised post stays valid |
| PostRoutes.UpdatePost | server/routes/posts.js:124-156 | 404 for an unknown post and 403 for a non-author, both changing nothing; otherwise only that post becomes its revision |
| PostRoutes.DeletePost | server/routes/posts.js:161-187 | 404 and 403 change nothing; otherwise the post, all its comments and all its votes are removed and the post is gone |
| PostRoutes.AddComment | server/routes/posts.js:209-240 | 404 for an unknown post changes nothing; otherwise one comment by the requester is appended and the post's count rises by one |
| PostRoutes.CastVote | server/routes/posts.js:245-307 | 400 for a value outside {-1,0,1}, 404 for an unknown post, both changing nothing; otherwise the vote transition, the pair's new value, the other pairs untouched and the post's counters recounted |
| UserRoutes.AuthoredBy | server/routes/users.js:23 | exactly the posts the user wrote |
| UserRoutes.ReputationConcat | server/routes/users.js:26-28 | reputation adds up over concatenation |
| UserRoutes.ReputationCons | server/routes/users.js:26-28 | a list's reputation is its first post's net votes plus the rest's |
| UserRoutes.ReputationWithoutPosts | server/routes/users.js:24-28 | someone without posts has reputation 0 |
| UserRoutes.ReputationFromVotes | server/routes/users.js:26-28 | with consistent tallies, reputation is the sum of the vote values stored on one's posts |
| UserRoutes.GetProfile | server/routes/users.js:11-39 | 404 exactly for an unknown user; otherwise the user without password, the comments they wrote and the loop-accumulated reputation |
| UserRoutes.UserPosts | server/routes/users.js:44-63 | the user's posts newest first, each with the number of its comments |
| UserRoutes.UserPostsExactly | server/routes/users.js:46-47 | GET /posts lists every post of the requester and only those, newest first |
| UserRoutes.PatchProfile | server/routes/users.js:85-87 | name and avatar change only to a truthy value; bio changes whenever the key is defined, to an empty string or to null included; nothing else changes |
| UserRoutes.PatchProfileIdempotent | server/routes/users.js:85-89 | sending the same profile update twice equals sending it once |
| UserRoutes.PatchProfileConsistent | server/routes/users.js:85-89 | the profile update keeps the database consistent |
| UserRoutes.UpdateProfile | server/routes/users.js:73-99 | 404 for an unknown user changes nothing; otherwise only that user is patched and returned without the password |
| AuthRoutes.AddUserConsistent | server/routes/auth.js:21-27 | a user with a fresh id and an unused email keeps the database consistent |
| AuthRoutes.Register | server/routes/auth.js:10-34 | a taken email gives 400 "User already exists" and changes nothing; otherwise exactly one user is added and the answer is 201 "User registered successfully" |
| AuthRoutes.Login | server/routes/auth.js:39-79 | success exactly when a user with that email passes the password check; the token signs only the id; the user carries id, name, email, avatar and isModerator; every failure is 400 "Invalid credentials" |
| AuthRoutes.LoginFailuresIndistinguishable | server/routes/auth.js:44-53 | an unknown email and a wrong password produce the identical answer |
| AuthRoutes.Me | server/routes/auth.js:84-96 | 404 exactly for an unknown id; otherwise the user without the password |
| AuthRoutes.RegisterThenLogin | server/routes/auth.js:21-72 | after registering, logging in with an accepted password gives a token for the new user |
| MockApi.MaxId | src/services/api.js:176 | no post id exceeds the maximum |
| MockApi.NextPostId | src/services/api.js:176 | the corrected new id is larger than every id in use |
| MockApi.NextPostIdWhileNumbered | src/services/api.js:176 | while the ids are exactly 1..n in order, the corrected id equals length + 1 |
| MockApi.LengthPostIdCollidesAfterDelete | src/services/api.js:176 | from the seeded posts 1..4, deleting post 2 and then creating a post as written yields a second id 4, and looking up id 4 still finds the old post; the corrected id gives 5 and distinct ids |
| MockApi.NewMockPost | src/services/api.js:175-188 | the new post has the given title and content, tags defaulting to [], the image as given when truthy and null otherwise, zero counters and comment count, no own vote, no updatedAt, and the logged-in author |
| MockApi.Merge | src/services/api.js:204-208 | every key present in the patch wins, updatedAt is set, and every other field is kept |
| MockApi.MergeIdempotent | src/services/api.js:204-208 | applying the same patch twice at one time equals applying it once |
| MockApi.MockStore.constructor | src/services/api.js:39-142 | the store starts from the given seed posts and comments, which must have comments numbered 1..n |
| MockApi.MockStore.FetchPosts | src/services/api.js:148-158 | the whole posts array, whatever page and limit are asked for |
| MockApi.MockStore.FetchPostById | src/services/api.js:160-170 | the first post with that id, or "Post not found" exactly when none has it |
| MockApi.MockStore.FetchCommentsByPostId | src/services/api.js:232-240 | exactly the comments with that post id |
| MockApi.CommentsInStoredOrder | src/services/api.js:235 | the comments are listed in stored order |
| MockApi.MockStore.FetchUserPosts | src/services/api.js:304-314 | exactly the posts of author 1 |
| MockApi.MockStore.CreatePost | src/services/api.js:172-196 | exactly one post is pushed with id length + 1, as written, and that id is returned; the ids stay distinct exactly when no stored post already has that id (see Findings) |
| MockApi.MockStore.CreatePostFreshId | src/services/api.js:172-196 | the corrected `createPost`: exactly one post is pushed with an id one past every id in use, so distinct ids stay distinct |
| MockApi.MockStore.UpdatePost | src/services/api.js:198-215 | an unknown id fails and changes nothing; otherwise only the first matching post becomes its merge with the patch; distinct ids stay distinct |
| MockApi.MockStore.DeletePost | src/services/api.js:217-229 | an unknown id fails and changes nothing; otherwise exactly the first matching post is spliced out, the others in order; with distinct ids, no post with that id remains |
| MockApi.MockStore.CreateComment | src/services/api.js:242-271 | one comment numbered length + 1 is pushed; the first matching post's comment count rises by one, and no post changes when none matches; distinct post ids stay distinct |
| MockApi.MockStore.VoteOnPost | src/services/api.js:274-301 | an unknown id fails and changes nothing; otherwise only that post's counters and own vote move by the shared ±1 rule; distinct ids stay distinct |
| MockApi.MockVoteRules | src/services/api.js:282-294 | the mock vote sets the own vote (null for 0), keeps the counters minus the own vote's share, and repeating the value changes nothing |
| VoteButtons.OrZero | src/components/VoteButtons.jsx:12-13 | a missing count reads as 0 |
| VoteButtons.Buttons.FromProps | src/components/VoteButtons.jsx:11-13 | the props' tally has missing counts as 0 |
| VoteButtons.Buttons.constructor | src/components/VoteButtons.jsx:11-14 | the state starts from the props, with nothing in flight |
| VoteButtons.Buttons.HandleVote | src/components/VoteButtons.jsx:18-59 | without a user, while voting, or without a post id nothing changes and nothing is sent; otherwise the toggled value is sent and the shown tally takes the ±1 step |
| VoteButtons.Buttons.Settle | src/components/VoteButtons.jsx:60-69 | a failure reverts the shown tally to the props, with missing counts as 0; the vote is then no longer in flight |
| VoteButtons.Buttons.DisplayedScore | src/components/VoteButtons.jsx:96 | the displayed score is the shown upvotes minus the shown downvotes |
| VoteButtons.ClickKeepsOthersShare | src/components/VoteButtons.jsx:44-56 | each click keeps the counters minus the shown vote's share, and clears the shown vote exactly when it retracts it |
| HomePage.FilteredPosts | src/pages/HomePage.jsx:40-54 | exactly the loaded posts mentioning the term in title, content or a tag, case-insensitively; [] when the loaded value is not an array |
| HomePage.MentionsEmpty | src/pages/HomePage.jsx:42-46 | every post mentions the empty term |
| HomePage.EmptyTermKeepsAll | src/pages/HomePage.jsx:42-46 | an empty search term shows every post, in order |
| HomePage.FilteredInLoadedOrder | src/pages/HomePage.jsx:41-53 | the shown posts keep their loaded order |
| HomePage.ShownIff | src/pages/HomePage.jsx:41-53 | a post is shown exactly when it is loaded and mentions the term |
| HomePage.PageButtons | src/pages/HomePage.jsx:216 | the buttons read 1..totalPages in order |
| HomePage.PageButtonsExactly | src/pages/HomePage.jsx:216 | there is a button for every page and only for those, in increasing order |
| HomePage.Pager.constructor | src/pages/HomePage.jsx:16-17 | the pager starts at page 1 of 1 |
| HomePage.Pager.Loaded | src/pages/HomePage.jsx:27 | totalPages becomes ceil(number of posts / 10) |
| HomePage.Pager.Previous | src/pages/HomePage.jsx:209 | Previous moves one page back and never below page 1 |
| HomePage.Pager.Next | src/pages/HomePage.jsx:229 | Next moves one page on and never beyond totalPages |
| HomePage.Pager.GoTo | src/pages/HomePage.jsx:219 | a page button sets the current page to its number |
| CreatePostPage.PostForm.constructor | src/pages/CreatePostPage.jsx:11-16 | the form starts empty, with no tags |
| CreatePostPage.PostForm.EditTitle | src/pages/CreatePostPage.jsx:103 | typing sets the title and nothing else |
| CreatePostPage.PostForm.EditContent | src/pages/CreatePostPage.jsx:118 | typing sets the content and nothing else |
| CreatePostPage.PostForm.EditTag | src/pages/CreatePostPage.jsx:162 | typing sets the tag input and nothing else |
| CreatePostPage.PostForm.AddTag | src/pages/CreatePostPage.jsx:20-25 | the trimmed tag is added and the input cleared exactly when it is non-empty, new and fewer than five tags exist; otherwise nothing changes; at most five distinct trimmed non-empty tags, always |
| CreatePostPage.PostForm.RemoveTag | src/pages/CreatePostPage.jsx:27-29 | every tag equal to the argument goes and the rest stay in order |
| CreatePostPage.PostForm.Submission | src/pages/CreatePostPage.jsx:57-74 | nothing is submitted exactly when the trimmed title or content is empty; otherwise title, content, tags and preview URL are passed on |
| CreatePostPage.EditorTagsSurviveTrim | src/pages/CreatePostPage.jsx:21-22 | a property of the two functions, not of a call path (the page posts to the mock store, which does not trim): the schema's per-tag `trim` setter leaves every tag list the editor can build unchanged |
| CreatePostPage.SubmitWithoutImage | src/pages/CreatePostPage.jsx:67-74 | a post submitted without an image is stored by the mock with image null and the edited tags |

## Left out

- Express routing, JSON bodies, the Mongoose connection, `populate` and `lean`: I/O plumbing. A populated author is just the stored author id.
- The JWT middleware: private routes take the requester's id as a parameter.
  - GET / and GET /:id are mounted without that middleware, so as deployed there is no requester. Those routes take an optional requester, and nothing more is claimed.
- Password hashing, bcrypt `comparePassword` and `jwt.sign`: foreign libraries. Login takes the password check and the signer as function parameters, and Register stores the password as given. server/models/User.js and server/models/Comment.js are not part of this model. Users and comments have the fields the routes use. A new user has no avatar or bio and is not a moderator.
- Database failures, which the handlers answer with 500: not modelled. The only 500 modelled is the schema rejecting a post on save. Comment and user validation is not modelled.
- `Promise.all` and concurrent requests, including two votes racing on the unique index: concurrency. The delete and its cascade are one atomic step.
- PostRoutes.ListPosts: requires page ≥ 1 and limit ≥ 1 after defaulting. A negative query value is truthy after `parseInt`, and what skip/limit then return depends on the database.
- The database's order among posts or comments created at the same time: not claimed. Sorting is shown ordered and a permutation, nothing more.
- Timestamps are abstract natural numbers passed in as parameters. The mock store's `delay` calls are dropped.
- `toLowerCase` and `trim` are modelled on ASCII only. JavaScript also lowercases other letters and trims Unicode space.
- PostRoutes.UpdatePost and PostRoutes.CreatePost: take tags as a list or missing. A non-array truthy `tags` value is not modelled.
- MockApi.MockStore.UpdatePost: the patch carries title, content, tags and image. Other keys, such as an `id` that would overwrite the post's own, and keys present with the value `undefined` are not modelled.
- The mock store's ids are compared as numbers. A string id from the URL, which `===` would never match, is not modelled.
- The mock `fetchUserProfile` (src/services/api.js:316-334) returns a fixed profile and is left out. The mock `login` and `register` (axios calls) and the token in `localStorage` are left out as network and browser storage.
- The mock `deletePost` keeps the deleted post's comments. The model keeps them too, as the code does.
- React state batching: `handleVote` and the end of its request are two separate steps, `HandleVote` and `Settle`. Two clicks within one render, before `isVoting` is seen, are not modelled. The toast and the redirect show up only as the `Outcome`.
- VoteButtons.Buttons.HandleVote: requires the clicked value ±1, since only the two buttons call it.
- HomePage.Pager.Previous, HomePage.Pager.Next and HomePage.Pager.GoTo: require totalPages > 1, since the pager renders only then.
- The home page's loading and error states, and the search input: UI. The post form's image reader, `removeImage` and `isSubmitting` are UI too. Only `imagePreview` is kept.
- All rendering and markup.

## Findings

| source | as written | input that shows it | evidently intended | confidence | as-written member | corrected member |
|---|---|---|---|---|---|---|
| src/services/api.js:176 | a new post's id is `posts.length + 1` | delete post 2 from posts 1..4, then create a post: it gets id 4, which post 4 already has | a new id that no post has, such as one past the largest id | not executed; medium (mock code) | MockApi.LengthPostIdCollidesAfterDelete | MockApi.MockStore.CreatePostFreshId |

`MockApi.MockStore.CreatePost` models the code as written: it uses `MockApi.LengthPostId`, and its contract says the ids stay distinct only when that id is unused. The store's invariant therefore does not claim distinct post ids. `MockApi.LengthPostIdCollidesAfterDelete` works through the states that `DeletePost` and `CreatePost` produce from the seed. `MockApi.MockStore.CreatePostFreshId` is the corrected operation. It uses `MockApi.NextPostId`, one past the largest id, and keeps distinct ids distinct. `MockApi.NextPostIdWhileNumbered` shows that the two ids agree until a post is deleted.
