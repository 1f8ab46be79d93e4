# Give Bank referrals — a verified model of the core rules

Give Bank is a Django REST server and a React client. Members post
referrals, called *gives*, each with a business category and the contact
details of a prospect. They browse the gives of others and compete on a
leaderboard. This project models the parts of the system that compute
something, in Dafny, and proves what they promise. The modelled parts are:

- **Contact masking.** There are two unrelated schemes.
  - The client's All Gives page keeps only the length of an e-mail's local part. It keeps the first two characters of a phone number.
  - The server keeps the first and last characters of the local part and the whole domain. It keeps the last four characters of a phone number. The server's scheme is written out three times: on `Give`, on `User`, and in the contact-info serializer. The model keeps each copy as written and proves that the copies agree and that each is idempotent.
- **Leaderboards.**
  - The dashboard builds its boards in the browser: it tallies per creator and sorts stably by count. It builds an all-time board and a weekly board, and cuts each into a podium of three and the rest.
  - The server has its own board: the top ten by `give_count`, for all time or for the last week. It also computes each member's rank.
- **Lists.** This covers the search-and-category filter of the two list pages, the creator label, and the edit form. It also covers the page count and the five-link pagination bar.
- **Authorization and the give endpoints.**
  - The three permission classes.
  - The toggle, contact-info, stats and list endpoints.
  - The serializer choice of the two detail views.
  - Registration and login validation.

Requests are modelled as pure functions from a table of records to a response. The give table is a `seq<Give>` with unique ids, and an endpoint that changes it also returns the new table. Every exception the code does not catch is modelled as a result:

- the tuple unpack of `email.split('@')` (`MaskError`);
- a 500 response (`ServerError`);
- a permission class reading `is_superadmin` on an anonymous user (`Crash`).

The files follow the program's structure:

| file | holds |
|---|---|
| `wrappers.dfy` | `Option`, `Result`, JavaScript/Python truthiness |
| `http.dfy` | the response type of the views and the principal of a request |
| `text.dfy` | split/join, strip, slicing, ASCII lower-casing, substring search |
| `seqs.dfy` | order-preserving `Filter` and its laws |
| `client_data.dfy`, `client_masking.dfy`, `dashboard.dfy`, `listing.dfy`, `pagination.dfy` | the browser pages |
| `user_model.dfy`, `give_model.dfy`, `server_masking.dfy` | the two Django models and their masks |
| `permissions.dfy`, `give_serializers.dfy`, `user_serializers.dfy`, `give_views.dfy`, `user_views.dfy` | permission classes, serializers and views |

Some behaviours of the code worth noting:

- **Short local parts.** For a local part shorter than three characters, the client's `maskEmail` shows one star, not one star per character.
- **No role check on the client.** The All Gives page masks every e-mail and phone. It does not check the viewer's role.
- **Tie order on the client board.** Equal counts appear in ascending user id. The reason is that `Object.values` lists integer keys in ascending order and the sort is stable.
- **Names on the client board.** The name and avatar of a row come from the creator's first record.

A few behaviours the code has, perhaps unintentionally, are modelled as written:

- **Contact info masks even for the owner.** The contact-info endpoint returns the masked contact even to the give's owner or an administrator, because its serializer masks unconditionally.
- **"Public" user data is not masked.** `PublicUserSerializer` renders `email` and `mobile` unmasked.
- **The owner gets the public serializer.** `UserDetailView` chooses the full serializer only for administrators, so an account's owner sees the public one.
- **Anonymous detail requests fail with a 500.** `GiveDetailView` and `UserDetailView` declare only `IsOwnerOrSuperAdmin`, with no `IsAuthenticated`. An anonymous request for an existing id reaches the object check, which reads `is_superadmin` on the anonymous user and raises. `GiveViews.RetrieveGive` and `UserViews.RetrieveUser` return `ServerError` exactly then.
- **Dead code in `GiveDetailView`.** The public branch of `GiveDetailView` can never run, because the object permission admits only the owner and administrators. `GiveViews.RetrieveGive` proves this.

## Model

| member | source | states |
|---|---|---|
| ClientMasking.MaskEmail | client/src/pages/AllGives.jsx:39-44 | a missing or empty e-mail masks to `""`; a local part shorter than 3 gives exactly `*@****`; otherwise as many stars as the local part has characters, then `@****` |
| ClientMasking.MaskEmailAlphabet | client/src/pages/AllGives.jsx:41-43 | a masked e-mail is only stars followed by `@****`: no input character leaks |
| ClientMasking.MaskEmailDependsOnlyOnLocalLength | client/src/pages/AllGives.jsx:41-43 | two e-mails mask alike exactly when their local parts are both short or have the same length |
| ClientMasking.LocalPartOf | client/src/pages/AllGives.jsx:41 | the local part of `a@b` is `a` when `a` has no `@` |
| ClientMasking.MaskEmailExamples | client/src/pages/AllGives.jsx:41-43 | `ab@…` masks to `*@****` and `abcdef@…` to `******@****`, whatever the domain |
| ClientMasking.MaskPhone | client/src/pages/AllGives.jsx:45-48 | empty exactly for a missing or empty phone; otherwise the first `min(2, len)` characters followed by `****` |
| ClientMasking.MaskPhoneExamples | client/src/pages/AllGives.jsx:45-48 | `9876543210` masks to `98****`, `7` to `7****` |
| ServerMasking.MaskLocal | server/referrals/models.py:119-122 | same length; a local part of at most 2 characters is unchanged; otherwise first and last characters are kept and every middle one is `*` |
| ServerMasking.MaskLocalIdempotent | server/referrals/models.py:119-122 | masking a masked local part changes nothing |
| ServerMasking.GiveMaskedEmail | server/referrals/models.py:114-124 | an empty e-mail gives `***@***.com`; a non-empty one succeeds exactly when it has one `@`, and the unpack error otherwise reports a field count other than 2 |
| ServerMasking.MaskedEmailShape | server/referrals/models.py:118-123 | `local@domain` masks to the masked local part, `@`, and the domain verbatim |
| ServerMasking.MaskedEmailSplits | server/referrals/models.py:118 | every accepted non-empty e-mail splits into exactly two fields |
| ServerMasking.GiveMaskedEmailIdempotent | server/referrals/models.py:114-124 | masking an already-masked e-mail, the fallback included, gives it back unchanged |
| ServerMasking.FallbackIsFixed | server/referrals/models.py:124 | the fallback `***@***.com` masks to itself |
| ServerMasking.GiveMaskedPhone | server/referrals/models.py:126-131 | always 12 characters starting `***-***-`; the last 4 characters when the phone has at least 4, else `***-***-****` |
| ServerMasking.GiveMaskedPhoneIdempotent | server/referrals/models.py:126-131 | masking a masked phone changes nothing |
| UserModel.FullName | server/users/models.py:28-31 | no whitespace at either end; with one name empty it is the other name stripped, so `""` when both are empty; `first last` when both are trimmed and non-empty |
| UserModel.FullNameOneName | server/users/models.py:31 | the joining space disappears when either name is empty |
| UserModel.MaskedMobile | server/users/models.py:38-43 | the user's copy of the phone mask agrees with the give's on the same string (a missing mobile as `""`) |
| UserModel.MaskedEmail | server/users/models.py:45-55 | the user's copy of the e-mail mask agrees with the give's, errors included |
| GiveModel.CategoryCodes | server/referrals/models.py:8-38 | the 29 stored codes of `CATEGORY_CHOICES`, in declaration order, no code twice |
| GiveModel.GivesOf | server/users/models.py:33-36 | exactly the user's gives, in table order |
| GiveModel.CreatorContactInfo | server/referrals/models.py:133-140 | `whatsapp` and `mobile` are both the creator's mobile; `email` is the creator's e-mail |
| GiveModel.TotalGives | server/users/models.py:33-36 | `total_gives` counts the user's gives and is at most the table size |
| GiveModel.TotalGivesCountsBoth | server/users/models.py:33-36 | `total_gives` is the user's active gives plus their inactive gives |
| GiveSerializers.FullGiveView | server/referrals/serializers.py:6-17 | every stored field as stored, and `updated_at` present |
| GiveSerializers.PublicGiveView | server/referrals/serializers.py:20-39 | fails exactly when `masked_email` raises; otherwise the full view with `email`/`phone` replaced by `masked_email`/`masked_phone` and no `updated_at` |
| GiveSerializers.PublicViewHidesPhone | server/referrals/serializers.py:35-39 | a public view shows only the `***-***-` prefix plus four characters, and its masks are fixed points |
| GiveSerializers.ContactRepresentation | server/referrals/serializers.py:74-98 | fails exactly when the e-mail mask does; `whatsapp == mobile`; the mobile mask and the e-mail mask (fallback included) agree with the `Give` model's |
| GiveSerializers.ContactMobileMask | server/referrals/serializers.py:76-82 | a missing or short mobile gives `***-***-****`, otherwise `***-***-` and the last four characters |
| Permissions.IsSuperAdmin | server/users/permissions.py:7-8 | holds exactly for an authenticated superadmin |
| Permissions.IsOwnerOrSuperAdmin | server/users/permissions.py:14-27 | an anonymous user crashes; a superadmin passes; anyone else passes exactly for their own object (by `user`) or their own account (by `id`) |
| Permissions.IsOwnerOrReadOnly | server/users/permissions.py:33-46 | safe methods always pass; a superadmin passes; anyone else passes an unsafe method exactly on an object they own; an anonymous unsafe request crashes |
| Permissions.OwnerOrAdminImpliesOwnerOrReadOnly | server/users/permissions.py:14-46 | on an object with an owner, passing `IsOwnerOrSuperAdmin` implies passing `IsOwnerOrReadOnly` for every method |
| Permissions.PromotionKeepsPermissions | server/users/permissions.py:7-46 | granting `is_superadmin` never revokes any of the three permissions |
| UserSerializers.ValidateRegistration | server/users/serializers.py:59-62 | fails with "Passwords don't match" exactly when the passwords differ; otherwise returns the attributes unchanged |
| UserSerializers.CreateUser | server/users/serializers.py:64-70 | the account gets the submitted profile fields, the hasher's output as password, and no superadmin flag |
| UserSerializers.CreateIgnoresConfirmation | server/users/serializers.py:64-70 | the stored account does not depend on `password_confirm` |
| UserSerializers.ValidateLogin | server/users/serializers.py:88-102 | a missing username or password fails with the "Must include" message; otherwise "Invalid credentials" when authentication yields no one, "User account is disabled" for an inactive account, and the attributes plus the user on success |
| GiveViews.ToggleGiveStatus | server/referrals/views.py:141-165 | 404 for an unknown id and 403 for a non-owner non-admin, both leaving the table unchanged; otherwise only that give changes, its `is_active` flipped and `updated_at` restamped, and the full view of it is returned |
| GiveViews.TogglePreservesUniqueIds | server/referrals/views.py:155-156 | toggling keeps primary keys unique |
| GiveViews.ToggleTwiceRestores | server/referrals/views.py:155-156 | toggling twice restores the table except for the second `updated_at` |
| GiveViews.GiveContactInfo | server/referrals/views.py:75-97 | 404 exactly for a missing or inactive give; 403 exactly for an active give the viewer neither owns nor administers; 500 exactly when the viewer may see it and the creator's e-mail cannot be masked; a 200 carries the masked creator contact with `whatsapp == mobile` |
| GiveViews.CategoryStats | server/referrals/views.py:112-115 | the keys are exactly the codes, and each value counts the active gives of that category |
| GiveViews.GivesStats | server/referrals/views.py:100-138 | an admin's scope is the whole table and a member's their own gives; the total counts the scope, `total_gives` for a member; the active count is the number of active gives in scope, never above the total; one key per category code, counting active gives in scope |
| GiveViews.CategoryCountsPartitionActive | server/referrals/views.py:108-115 | when every active give has a known category, the per-category counts add up to the active count |
| GiveViews.PublicListQuery | server/referrals/views.py:26-27 | exactly the active gives, in table order |
| GiveViews.PublicListResponse | server/referrals/views.py:16-27 | the public list succeeds exactly when every active give's e-mail can be masked, else a 500; row `i` is the public view of the `i`-th active give, none showing `updated_at` |
| GiveViews.RenderPublic | server/referrals/views.py:19 | rendering many: one public view per give in order, or a 500 exactly when one of them fails |
| GiveViews.MyGivesQuery | server/referrals/views.py:39-40 | exactly the gives of the table the viewer created, in table order, as many as their `total_gives` |
| GiveViews.AdminAllQuery | server/referrals/views.py:69-72 | the whole table for an admin, empty for anyone else |
| GiveViews.DetailSerializer | server/referrals/views.py:53-56 | the full serializer exactly for an admin or the owner |
| GiveViews.RetrieveGive | server/referrals/views.py:48-56 | 404 exactly for an unknown id; 500 exactly for an anonymous request for an existing give; 403 exactly for a signed-in non-owner non-admin; 200 exactly for the owner or an admin, always with the full view |
| GiveViews.Find | server/referrals/views.py:146 | the position of the first give with that id, or none exactly when no give has it |
| UserViews.Since | server/users/views.py:86-90 | only `period=lastweek` sets a lower bound, one week before now; a missing period is all time |
| UserViews.WindowCountBounds | server/users/views.py:91-104 | the all-time `give_count` is `total_gives`, and a window never counts more |
| UserViews.Insert | server/users/views.py:97 | inserting into a descending list keeps it descending and adds exactly that row |
| UserViews.SortDesc | server/users/views.py:97 | `order_by('-give_count')` is a descending permutation of its input |
| UserViews.Leaderboard | server/users/views.py:85-104 | at most 10 rows, each an account with a positive count of gives in the period; descending by count; no account twice when ids are unique; no account left out has more gives than a row shown, and leaving one out means the board is full |
| UserViews.Candidates | server/users/views.py:91-96 | exactly the accounts with a positive count in the period, each with that count |
| UserViews.CandidatesDistinct | server/users/views.py:91-96 | with unique ids, no account is a candidate twice |
| UserViews.InsertDistinct | server/users/views.py:97 | inserting the row of an unlisted account keeps accounts distinct |
| UserViews.SortDescDistinct | server/users/views.py:97 | sorting keeps accounts distinct |
| UserViews.Top | server/users/views.py:97-104 | `[:10]`: a prefix of at most 10 rows, the whole input when it is shorter |
| UserViews.TopOfPermutation | server/users/views.py:97 | the first ten of a descending permutation hold only candidates, and drop only candidates with no larger count |
| UserViews.OtherPeriodsAreAllTime | server/users/views.py:86-104 | any period other than `lastweek` gives the all-time board |
| UserViews.Rank | server/users/views.py:140-144 | 0 exactly for an account without gives, else 1 + the number of accounts with strictly more |
| UserViews.RankBounds | server/users/views.py:140-144 | an account of the table with gives ranks between 1 and the number of accounts |
| UserViews.MaximumRanksFirst | server/users/views.py:140-144 | an account no one exceeds ranks 1 |
| UserViews.EqualCountsShareRank | server/users/views.py:140-144 | equal counts share a rank |
| UserViews.MoreGivesRanksHigher | server/users/views.py:140-144 | strictly more gives means a strictly smaller rank |
| UserViews.UserStatsView | server/users/views.py:124-145 | the total is `total_gives`, last week's count never exceeds it, and the rank is `Rank` |
| UserViews.UserDetailSerializer | server/users/views.py:60-63 | the full serializer exactly for a superadmin |
| UserViews.RetrieveUser | server/users/views.py:54-63 | 404 exactly for an unknown id; 500 exactly for an anonymous request for an existing account; 403 exactly for a signed-in non-admin asking about another account; the full view exactly for an admin; both views carry the account's raw e-mail and mobile and its `total_gives` |
| Dashboard.Tally | client/src/pages/Dashboard.jsx:40-55 | one row per creator with its first record's name and picture and its record count, no creator missing, counts summing to the records that have a user |
| Dashboard.Add | client/src/pages/Dashboard.jsx:42-55 | a record without a user changes nothing; existing rows keep their place and name, and the creator's row alone gains one; a new creator gets one row at the end with count 1 |
| Dashboard.AddAccurate | client/src/pages/Dashboard.jsx:42-55 | each step of the `forEach` keeps the tally exact |
| Dashboard.FirstUserIffCounted | client/src/pages/Dashboard.jsx:45-54 | a user has a first record exactly when they have a record |
| Dashboard.ObjectValues | client/src/pages/Dashboard.jsx:56 | `Object.values` lists the same rows in ascending id |
| Dashboard.InsertByCount | client/src/pages/Dashboard.jsx:56 | one insertion step of the stable sort: the same rows plus the new one, which comes first unless the first row has a larger count; the count sum grows by its count |
| Dashboard.SortByCount | client/src/pages/Dashboard.jsx:56 | the stable count sort keeps the rows and their sum |
| Dashboard.SortByCountRanked | client/src/pages/Dashboard.jsx:56 | stably sorting an id-ascending list by count orders it by count, ties by ascending id, ids unique |
| Dashboard.Leaderboard | client/src/pages/Dashboard.jsx:40-57 | ranked by count with ties in ascending id; unique ids; every row is the creator's first-seen name and picture with their record count (at least 1); every creator present; counts sum to the records with a user |
| Dashboard.WeeklyLeaderboard | client/src/pages/Dashboard.jsx:59-83 | the same construction over the records whose creation instant lies in `[weekAgo, now]` |
| Dashboard.WeeklyAtMostAllTime | client/src/pages/Dashboard.jsx:59-83 | everyone on the weekly board is on the all-time board with at least as many gives |
| Dashboard.CountInWindow | client/src/pages/Dashboard.jsx:62-66 | a user has no more records in the window than in total |
| Dashboard.Podium | client/src/pages/Dashboard.jsx:105-108 | podium plus rest is the board, and the podium holds `min(3, n)` rows |
| Listing.AllGivesFiltered | client/src/pages/AllGives.jsx:62-77 | an order-preserving subsequence keeping exactly the matching gives; with a category only that category survives; an empty search and category keep everything |
| Listing.MyGivesFiltered | client/src/pages/MyGives.jsx:184-197 | an order-preserving subsequence of gives matching the search and category |
| Listing.SomeFieldHasIff | client/src/pages/MyGives.jsx:185-196 | the short-circuit `.some` scan matches exactly when some field matches |
| Listing.PagesFilterAlike | client/src/pages/MyGives.jsx:184-197 | the My Gives filter keeps exactly what the All Gives filter keeps, in the same order |
| Listing.SearchIgnoresCase | client/src/pages/AllGives.jsx:63-74 | searching for the lower-cased text keeps the same gives |
| Listing.CreatorLabel | client/src/pages/AllGives.jsx:136-137 | never empty; `User` without a creator; the first name, else the username, else `User`, followed by a space and the last name when there is one, and nothing else |
| Listing.HandleEdit | client/src/pages/MyGives.jsx:134-147 | each text field is copied or `''`; `is_active` is kept when boolean and `true` otherwise |
| Listing.EditRoundTrip | client/src/pages/MyGives.jsx:134-147 | the editor opened on a give saved from a form shows that form again |
| Pagination.TotalPages | client/src/pages/MyGives.jsx:126 | one page for a missing or zero count, else the fewest pages of ten that hold the count |
| Pagination.Window | client/src/pages/MyGives.jsx:203-208 | `1 <= start <= end <= totalPages`, `min(5, totalPages)` pages, the current page inside when valid, centred when there is room |
| Pagination.RenderPagination | client/src/pages/MyGives.jsx:200-238 | no bar exactly when there is at most one page; `min(5, totalPages)` consecutive valid links holding a valid current page; an ellipsis exactly when the first or last page is not linked; Prev/Next disabled exactly on the first/last page |
| Text.Split | server/referrals/models.py:118 | one field more than separators, none containing the separator |
| Text.SplitJoin | server/referrals/models.py:118 | splitting a join of separator-free fields gives the fields back |
| Text.JoinSplit | server/referrals/models.py:118 | joining the split gives the string back |
| Text.FirstField | client/src/pages/AllGives.jsx:41 | the prefix before the first `@`, or the whole string |
| Text.Strip | server/users/models.py:31 | the input with only whitespace removed around it, neither starting nor ending with whitespace, and the input itself when it has none there |
| Text.StripUnique | server/users/models.py:31 | any whitespace-surrounded infix without outer whitespace is the stripped string |
| Text.StripIgnoresPadding | server/users/models.py:31 | whitespace added around a string does not change what `strip` leaves |
| Seqs.Filter | client/src/pages/AllGives.jsx:62 | no longer than its input, every element satisfying the predicate, the input when all do |
| Seqs.FilterIsSubsequence | client/src/pages/AllGives.jsx:62 | filtering keeps order |
| Seqs.FilterStrictlyMonotone | server/users/views.py:140-144 | a weaker predicate that also admits an element the stronger rejects keeps strictly more |

## Left out

- HTTP routing, DRF/ORM machinery: the `urls.py` files, the filter, search, ordering and pagination back-ends, and `select_related`. Querysets are plain filters over the table in table order, and the `-created_at` ordering of the list views is not modelled.
- Create, update and delete through `MyGivesListView` and the two detail views, and `UserUpdateSerializer`, `ProfileView` and `UserListView`. They are plain ModelSerializer CRUD with no logic of their own.
- Token handling: `LoginView`'s JWT pair, `logout_view`'s blacklist, the client's token refresh and local storage. This is I/O against libraries that are not part of this model.
- `authenticate` and `set_password` are parameters (an authentication oracle and a password hasher).
- Clocks: `datetime.now()`, `new Date()` and the calendar arithmetic of `setDate(getDate() - 7)`, with its daylight-saving effects. Instants are integers, and `now` and `weekAgo` are parameters.
- The fan-out of `Promise.all`, loading states, toasts and all JSX rendering. This includes the avatar initial (AllGives.jsx:133) and the `tel:`/`wa.me` links, which show the creator's raw mobile.
- The data path behind the client leaderboard. The client board is fed the public, active-only and possibly paginated list, while the server board counts every give. Both are modelled over the records they are given.
- The nested `user` object that `GiveSerializer` and `PublicGiveSerializer` embed is represented by the creator's id. `date_joined` is not modelled.
- Setup and admin configuration: `setup.py` and the two `admin.py` files.
- Text.Lower: ASCII-only lower-casing; JavaScript's `toLowerCase` also folds non-ASCII letters.
- Text.Strip: removes ASCII whitespace and the four information separators only; Python's `strip` also removes other Unicode whitespace.
- ClientMasking.MaskEmail: lengths are counted in characters, where JavaScript counts UTF-16 code units.
- ClientMasking.MaskPhone: keeps the first two characters, where `slice(0, 2)` keeps two UTF-16 code units and can split a surrogate pair.
- UserViews.Leaderboard: states no order among equal counts, because the database returns ties in an unspecified order. The model breaks ties by table order. Distinct rows are promised only for a table with unique primary keys, which the database guarantees.
