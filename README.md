# E-Commerce Inventory API: a verified model of its services

E-Commerce Inventory API is an ASP.NET Core web service. It provides:

- user registration, login and JWT sessions with rotating refresh tokens;
- salted password hashes;
- a product catalog with categories, filtered and paginated listing;
- image uploads for products.

This project models that service's logic in Dafny, one module per component:

| module | file | models |
|---|---|---|
| `Common` | common.dfy | the response envelope (`ApiResponseDto`), optional values, and the .NET string helpers the services use (`IsNullOrWhiteSpace`, `IsNullOrEmpty`, `ToLower`, `StartsWith`) |
| `Base64` | base64.dfy | `Convert.ToBase64String` and `Convert.FromBase64String` as defined in section 4 of RFC 4648, with the round trip proved |
| `PasswordUtils` | passwords.dfy | `HashPassword` and `VerifyPassword` over arrays, with the layout salt(16) followed by key(32) |
| `Entities` | entities.dfy | the `RefreshToken` record and the `User` entity as a class that updates its own fields |
| `AuthService` | auth.dfy | registration, login, refresh-token rotation and logout over a unit of work |
| `Inventory` | inventory.dfy | the category and product tables as a `Catalog` class: identity keys, the name index unique up to case, the restricted foreign key from product to category |
| `ProductService` | products.dfy | product validation, create/read/update/delete, and the filtered and paged listing |
| `CategoryService` | categories.dfy | category validation, name uniqueness up to case, product counts, and deletion only while no product is linked |
| `FileService` | files.dfy | the image-file checks, upload names and URLs, and the path `DeleteImageAsync` derives from a URL |

The user and refresh-token tables live in an `AuthStore`, which separates two states:

- `saved` is what the database holds;
- `working` is what the unit of work tracks: the saved rows plus every change made since the last `SaveChanges`.

At the end of a request the scoped context is disposed and `working` falls back to `saved`. The tables hold users as `UserRow` values: the services never call the User entity's methods; they build a user with an object initializer (AuthService.cs:56-62) and afterwards only read it. The `Entities.User` class models those methods on their own. The catalog services save once at the end of every operation, so the catalog is modelled as saved state only.

What the services take from outside becomes a parameter. That covers:

- the clock, which the model reads as whole seconds;
- the JWT settings and the JWT signer;
- the key derivation;
- the e-mail parser;
- the salt and refresh-token bytes drawn from the random generator;
- the Guid of an upload;
- the current HTTP request.

Identifiers are natural numbers handed out by counters. `User.Id` is a `Guid` in the source while `RefreshToken.UserId` is an `int`; both are the same abstract id here.

## Model

| member | source | states |
|---|---|---|
| Common.ToLower | E-Commerce_Inventory/E-Commerce_Inventory/Infrastructure/Services/CategoryService.cs:33-34 | the lowered string has the same length and lowers every character, one by one |
| Base64.Encode | E-Commerce_Inventory/E-Commerce_Inventory/Infrastructure/Services/AuthService.cs:351 | the encoding's length is a multiple of 4; it is empty exactly when the input is; 3 bytes become 4 characters when the byte count is a multiple of 3 |
| Base64.EncodeNoPadding | E-Commerce_Inventory/E-Commerce_Inventory/Infrastructure/Services/Security/PasswordUtils.cs:32 | a byte count divisible by 3 encodes to alphabet characters only, with no '=' padding |
| Base64.DecodeEncode | E-Commerce_Inventory/E-Commerce_Inventory/Infrastructure/Services/Security/PasswordUtils.cs:32-38 | decoding what ToBase64String wrote gives back exactly the bytes |
| Base64.Decode | E-Commerce_Inventory/E-Commerce_Inventory/Infrastructure/Services/Security/PasswordUtils.cs:38 | FromBase64String succeeds only when the characters left after skipping whitespace come in groups of four, and then gives three bytes per group, one or two fewer when the last group is padded |
| Base64.ForeignCharacterRejected | E-Commerce_Inventory/E-Commerce_Inventory/Infrastructure/Services/Security/PasswordUtils.cs:38 | a character that is not whitespace, not in the alphabet and not '=' makes FromBase64String throw, wherever it stands |
| Base64.EncodeFortyEight | E-Commerce_Inventory/E-Commerce_Inventory/Infrastructure/Services/Security/PasswordUtils.cs:27-32 | a 48-byte blob is stored as 64 alphabet characters with no padding |
| PasswordUtils.CopyBytes | E-Commerce_Inventory/E-Commerce_Inventory/Infrastructure/Services/Security/PasswordUtils.cs:28-29 | Array.Copy: the destination holds the source slice at the offset, and every other byte is unchanged |
| PasswordUtils.HashPassword | E-Commerce_Inventory/E-Commerce_Inventory/Infrastructure/Services/Security/PasswordUtils.cs:12-34 | the stored string is the base64 of the salt followed by the key derived from password and salt with 10000 iterations |
| PasswordUtils.VerifyPassword | E-Commerce_Inventory/E-Commerce_Inventory/Infrastructure/Services/Security/PasswordUtils.cs:35-64 | a string that is not base64, or that decodes to fewer than 48 bytes, is an error (the throw); otherwise the answer is whether the stored 32 key bytes equal the key derived from the candidate and the stored salt |
| PasswordUtils.KeysEqual | E-Commerce_Inventory/E-Commerce_Inventory/Infrastructure/Services/Security/PasswordUtils.cs:54-60 | the early-exit loop answers true exactly when the stored and computed keys are equal as sequences |
| PasswordUtils.HashLayout | E-Commerce_Inventory/E-Commerce_Inventory/Infrastructure/Services/Security/PasswordUtils.cs:27-29 | the stored hash decodes to 48 bytes: bytes 0-15 are the salt and bytes 16-47 are the derived key |
| PasswordUtils.StoredHashShape | E-Commerce_Inventory/E-Commerce_Inventory/Infrastructure/Services/Security/PasswordUtils.cs:32 | every stored hash is 64 base64 characters with no padding |
| PasswordUtils.HashThenVerify | E-Commerce_Inventory/E-Commerce_Inventory/Infrastructure/Services/Security/PasswordUtils.cs:22-49 | a password verifies against its own stored hash |
| PasswordUtils.VerifyOtherPassword | E-Commerce_Inventory/E-Commerce_Inventory/Infrastructure/Services/Security/PasswordUtils.cs:41-60 | the salt and key read back are exactly the ones written, so a candidate is accepted exactly when it derives the same key from that salt |
| PasswordUtils.MismatchRejects | E-Commerce_Inventory/E-Commerce_Inventory/Infrastructure/Services/Security/PasswordUtils.cs:56-58 | one differing key byte at any index below 32 makes verification answer false |
| PasswordUtils.ShortBlobIsError | E-Commerce_Inventory/E-Commerce_Inventory/Infrastructure/Services/Security/PasswordUtils.cs:38-46 | a non-base64 string, or fewer than 48 decoded bytes, is never answered true or false |
| Entities.User.constructor | E-Commerce_Inventory/E-Commerce_Inventory/Domain/Entities/User.cs:16-24 | the new user holds the given id, username, email and hash, is active, has no refresh tokens and no UpdatedAt |
| Entities.NewUser | E-Commerce_Inventory/E-Commerce_Inventory/Domain/Entities/User.cs:16-24 | construction fails exactly when username, email or hash is null; otherwise the user is fresh and active with an empty token list |
| Entities.User.UpdatePassword | E-Commerce_Inventory/E-Commerce_Inventory/Domain/Entities/User.cs:26-30 | a null hash changes nothing and reports failure; otherwise hash and UpdatedAt are set and every other field is kept |
| Entities.User.AddRefreshToken | E-Commerce_Inventory/E-Commerce_Inventory/Domain/Entities/User.cs:32-35 | the token is appended at the end, and every other field is kept |
| Entities.User.RemoveRefreshToken | E-Commerce_Inventory/E-Commerce_Inventory/Domain/Entities/User.cs:37-40 | the list loses its first occurrence of the token when there is one, and is unchanged otherwise; the result says which |
| Entities.User.Deactivate | E-Commerce_Inventory/E-Commerce_Inventory/Domain/Entities/User.cs:42-46 | the user is inactive and UpdatedAt is stamped; the hash, names and tokens are kept |
| Entities.DeactivateTwice | E-Commerce_Inventory/E-Commerce_Inventory/Domain/Entities/User.cs:42-46 | deactivating again keeps the user inactive and changes nothing but the stamp |
| Entities.RemoveFirst | E-Commerce_Inventory/E-Commerce_Inventory/Domain/Entities/User.cs:39 | List.Remove shortens the list by one when the element is present, and leaves it unchanged otherwise |
| Entities.RemoveFirstSplits | E-Commerce_Inventory/E-Commerce_Inventory/Domain/Entities/User.cs:39 | removal keeps everything before and after the first occurrence, in order |
| Entities.RemoveFirstMultiset | E-Commerce_Inventory/E-Commerce_Inventory/Domain/Entities/User.cs:39 | removal takes exactly one copy of the element out of the list's bag |
| AuthService.ValidateRegistration | E-Commerce_Inventory/E-Commerce_Inventory/Infrastructure/Services/AuthService.cs:270-284 | no errors exactly when all three fields are acceptable; each message appears exactly when its rule fails; only the three messages occur, in username, email, password order |
| AuthService.ValidateLogin | E-Commerce_Inventory/E-Commerce_Inventory/Infrastructure/Services/AuthService.cs:286-297 | each message appears exactly when its field is blank, email before password, at most two |
| AuthService.FindUser | E-Commerce_Inventory/E-Commerce_Inventory/Infrastructure/Services/AuthService.cs:43-44 | FirstOrDefaultAsync: the index found matches and no earlier row does; nothing is found exactly when no row matches |
| AuthService.FindToken | E-Commerce_Inventory/E-Commerce_Inventory/Infrastructure/Services/AuthService.cs:156-157 | the first token with the value (and, for Refresh, not revoked and unexpired); nothing found exactly when no token matches |
| AuthService.AuthStore.AddUser | E-Commerce_Inventory/E-Commerce_Inventory/Infrastructure/Services/AuthService.cs:64 | the user row is tracked with a fresh id and the database is untouched; the Email and Username indexes stay unique |
| AuthService.AuthStore.AddToken | E-Commerce_Inventory/E-Commerce_Inventory/Infrastructure/Services/AuthService.cs:361 | the token is tracked with a fresh id and the database is untouched |
| AuthService.AuthStore.Revoke | E-Commerce_Inventory/E-Commerce_Inventory/Infrastructure/Services/AuthService.cs:179-180 | only the tracked token is marked revoked, and the database is untouched |
| AuthService.AuthStore.SaveChanges | E-Commerce_Inventory/E-Commerce_Inventory/Infrastructure/Services/AuthService.cs:186 | every pending change reaches the database at once, and nothing is left pending |
| AuthService.AuthStore.EndRequest | E-Commerce_Inventory/E-Commerce_Inventory/Infrastructure/Repositories/UnitOfWork.cs:57-61 | disposing the context drops what was not saved and keeps the database |
| AuthService.RevokeAt | E-Commerce_Inventory/E-Commerce_Inventory/Infrastructure/Services/AuthService.cs:179 | the chosen token is revoked with its other fields kept, and every other token is unchanged |
| AuthService.LogoutTokens | E-Commerce_Inventory/E-Commerce_Inventory/Infrastructure/Services/AuthService.cs:217-223 | the first token with the value is revoked and no other changes; with no such token the table is unchanged; values and ids are kept |
| AuthService.NewToken | E-Commerce_Inventory/E-Commerce_Inventory/Infrastructure/Services/AuthService.cs:353-359 | the token belongs to the user, is created now and carries the value; it is usable exactly before now plus the configured number of days |
| AuthService.AccessToken | E-Commerce_Inventory/E-Commerce_Inventory/Infrastructure/Services/AuthService.cs:322-344 | the reported expiry is now plus the configured minutes, the JWT is signed with that same expiry, and a non-negative setting never gives an expiry in the past |
| AuthService.GenerateRefreshToken | E-Commerce_Inventory/E-Commerce_Inventory/Infrastructure/Services/AuthService.cs:346-363 | the value is the base64 of the 32 random bytes; one unrevoked token for the user, created now and expiring after the configured days, is tracked but not saved |
| AuthService.Register | E-Commerce_Inventory/E-Commerce_Inventory/Infrastructure/Services/AuthService.cs:26-94 | invalid input gives "Validation failed" with the itemized errors and no change; a stored user with the same email or the same username gives the duplicate failure and no change; otherwise exactly one user, with the hash of the password, is saved, and its token is only tracked; token ownership is preserved |
| AuthService.CreateUser | E-Commerce_Inventory/E-Commerce_Inventory/Infrastructure/Services/AuthService.cs:56-69 | the new user is saved, its refresh token is tracked after the save, and the response carries that token |
| AuthService.Login | E-Commerce_Inventory/E-Commerce_Inventory/Infrastructure/Services/AuthService.cs:96-150 | unknown email and wrong password give the identical "Invalid email or password" failure and no change; an unreadable stored hash gives the login fault; success tracks one new token for the user and never touches the database |
| AuthService.Refresh | E-Commerce_Inventory/E-Commerce_Inventory/Infrastructure/Services/AuthService.cs:152-211 | only a stored token with the value that is unrevoked and unexpired is accepted; otherwise "Invalid or expired refresh token" with no change; a missing owner gives "User not found" with nothing revoked; success saves the old token revoked together with a new token for the same user; ownership is preserved |
| AuthService.Logout | E-Commerce_Inventory/E-Commerce_Inventory/Infrastructure/Services/AuthService.cs:213-241 | always "Logout successful"; the database afterwards is the token table with the first token of that value revoked |
| AuthService.LogoutIdempotent | E-Commerce_Inventory/E-Commerce_Inventory/Infrastructure/Services/AuthService.cs:217-223 | logging out twice with the same value leaves the same tables as once |
| AuthService.RotatedValueRefused | E-Commerce_Inventory/E-Commerce_Inventory/Infrastructure/Services/AuthService.cs:156-186 | after a rotation, the presented value is refused at any later time unless another live token carries it |
| AuthService.RegisteredUserCanLogIn | E-Commerce_Inventory/E-Commerce_Inventory/Infrastructure/Services/AuthService.cs:43-121 | a user Register adds is the one Login finds by that email, and the registered password verifies against the stored hash |
| AuthService.DeleteUser | E-Commerce_Inventory/E-Commerce_Inventory/Infrastructure/Data/ApplicationDbContext.cs:34-37 | after deleting a user no user has that id and no token refers to it |
| AuthService.DeleteUserKeepsOwnership | E-Commerce_Inventory/E-Commerce_Inventory/Infrastructure/Data/ApplicationDbContext.cs:37 | the cascade leaves every remaining token with an existing owner |
| AuthService.LoginThenRefresh | E-Commerce_Inventory/E-Commerce_Inventory/Infrastructure/Services/AuthService.cs:125-166 | as written: when the database holds no token with the value a login hands out, the next request's refresh with that value is refused, and the database is unchanged |
| AuthService.RegisterThenEndRequest | E-Commerce_Inventory/E-Commerce_Inventory/Infrastructure/Services/AuthService.cs:64-69 | as written: after a registration request the new user is saved and the token table is unchanged |
| AuthService.LoginCommitted | E-Commerce_Inventory/E-Commerce_Inventory/Infrastructure/Services/AuthService.cs:96-150 | corrected: a successful login found the user by email, verified the password, and saved exactly one new token |
| AuthService.RegisterCommitted | E-Commerce_Inventory/E-Commerce_Inventory/Infrastructure/Services/AuthService.cs:26-94 | corrected: a successful registration passed validation and the duplicate lookup, and it saves the new user (with the hash of the password) together with that user's token; the response carries the issued tokens |
| AuthService.LoginCommittedThenRefresh | E-Commerce_Inventory/E-Commerce_Inventory/Infrastructure/Services/AuthService.cs:152-186 | corrected: after a successful login, refreshing with its token before expiry succeeds |
| Inventory.FindCategory | E-Commerce_Inventory/E-Commerce_Inventory/Infrastructure/Services/CategoryService.cs:193-194 | GetByIdAsync and FirstOrDefaultAsync: the index found matches and no earlier row does; nothing is found exactly when no row matches |
| Inventory.FindProduct | E-Commerce_Inventory/E-Commerce_Inventory/Infrastructure/Services/ProductService.cs:174 | the index found has the id and no earlier product does; nothing is found exactly when no product has the id |
| Inventory.ProductCount | E-Commerce_Inventory/E-Commerce_Inventory/Infrastructure/Services/CategoryService.cs:92 | CountAsync never exceeds the table size |
| Inventory.ProductCountPositive | E-Commerce_Inventory/E-Commerce_Inventory/Infrastructure/Services/CategoryService.cs:257 | the count is positive exactly when ExistsAsync finds a linked product |
| Inventory.ProductCountAppend | E-Commerce_Inventory/E-Commerce_Inventory/Infrastructure/Services/CategoryService.cs:92 | the count of two tables together is the sum of their counts |
| Inventory.RemoveAt | E-Commerce_Inventory/E-Commerce_Inventory/Infrastructure/Services/ProductService.cs:311 | deleting a row keeps all other rows, in order |
| Inventory.Catalog.AddProduct | E-Commerce_Inventory/E-Commerce_Inventory/Infrastructure/Services/ProductService.cs:54-55 | the product is appended with the next identity value; ids stay unique and every product still references a category |
| Inventory.Catalog.SetProduct | E-Commerce_Inventory/E-Commerce_Inventory/Infrastructure/Services/ProductService.cs:262-263 | only that row is replaced, and the schema's constraints still hold |
| Inventory.Catalog.RemoveProduct | E-Commerce_Inventory/E-Commerce_Inventory/Infrastructure/Services/ProductService.cs:311-312 | only that row leaves, and the constraints still hold |
| Inventory.Catalog.AddCategory | E-Commerce_Inventory/E-Commerce_Inventory/Infrastructure/Services/CategoryService.cs:52-53 | the category is appended with the next identity value; the name index stays unique up to case |
| Inventory.Catalog.SetCategory | E-Commerce_Inventory/E-Commerce_Inventory/Infrastructure/Services/CategoryService.cs:209-210 | only that row is replaced; names stay unique and products keep their category |
| Inventory.Catalog.RemoveCategory | E-Commerce_Inventory/E-Commerce_Inventory/Infrastructure/Data/ApplicationDbContext.cs:53-56 | a category with no linked products leaves, and every product still references a category (the restricted foreign key) |
| Inventory.ReferencesAfterAppend | E-Commerce_Inventory/E-Commerce_Inventory/Infrastructure/Data/ApplicationDbContext.cs:53-56 | adding a category keeps every product's category reference valid |
| Inventory.ReferencesAfterSet | E-Commerce_Inventory/E-Commerce_Inventory/Infrastructure/Data/ApplicationDbContext.cs:53-56 | changing a category without changing its id keeps every reference valid |
| Inventory.ReferencesAfterRemove | E-Commerce_Inventory/E-Commerce_Inventory/Infrastructure/Data/ApplicationDbContext.cs:56 | removing a category that no product links to keeps every reference valid |
| Inventory.FreshCategoryIsEmpty | E-Commerce_Inventory/E-Commerce_Inventory/Infrastructure/Services/CategoryService.cs:60 | no product is linked to the id the next category receives |
| ProductService.NameCheck | E-Commerce_Inventory/E-Commerce_Inventory/Infrastructure/Services/ProductService.cs:336-339 | at most one name error, and each name error appears exactly when its rule fails |
| ProductService.Check | E-Commerce_Inventory/E-Commerce_Inventory/Infrastructure/Services/ProductService.cs:332-357 | an error is reported exactly when its rule fails, in the order the rules are written, at most six |
| ProductService.CheckPasses | E-Commerce_Inventory/E-Commerce_Inventory/Infrastructure/Services/ProductService.cs:332-357 | no error exactly when the input is acceptable |
| ProductService.CheckRules | E-Commerce_Inventory/E-Commerce_Inventory/Infrastructure/Services/ProductService.cs:336-354 | each rule, both directions: blank name, name over 200, non-empty description over 1000, price at most 0, negative stock, non-empty image URL over 500, category id at most 0; the two name errors never occur together |
| ProductService.Validate | E-Commerce_Inventory/E-Commerce_Inventory/Infrastructure/Services/ProductService.cs:359-384 | the message list is empty exactly when the input is acceptable; one message per failing rule in rule order; the same rules for create and update |
| ProductService.Revised | E-Commerce_Inventory/E-Commerce_Inventory/Infrastructure/Services/ProductService.cs:254-260 | the updated product takes name, description, price, stock, image URL and category id from the request and UpdatedAt from the clock, and keeps its id and CreatedAt |
| ProductService.Create | E-Commerce_Inventory/E-Commerce_Inventory/Infrastructure/Services/ProductService.cs:17-87 | a validation error or an unknown category changes nothing; otherwise one product is appended and the response shows it with its category name |
| ProductService.GetById | E-Commerce_Inventory/E-Commerce_Inventory/Infrastructure/Services/ProductService.cs:170-216 | "Product not found" exactly when no product has the id; otherwise the product's view, with "Unknown" when its category is missing |
| ProductService.Update | E-Commerce_Inventory/E-Commerce_Inventory/Infrastructure/Services/ProductService.cs:218-295 | checks run in the order validation, product, category, each failure changing nothing; success replaces only that product, keeping its id and CreatedAt and setting the input fields and UpdatedAt |
| ProductService.Delete | E-Commerce_Inventory/E-Commerce_Inventory/Infrastructure/Services/ProductService.cs:297-330 | an absent id gives "Product not found" and no change; otherwise exactly that product is removed and no product with the id remains |
| ProductService.Filtered | E-Commerce_Inventory/E-Commerce_Inventory/Infrastructure/Services/ProductService.cs:97-110 | every kept product comes from the table and matches the category, minimum and maximum filters, and every matching product is kept |
| ProductService.QueryIsFiltered | E-Commerce_Inventory/E-Commerce_Inventory/Infrastructure/Services/ProductService.cs:97-110 | the chain of Where calls the service builds equals the reference filter |
| ProductService.Skip | E-Commerce_Inventory/E-Commerce_Inventory/Infrastructure/Services/ProductService.cs:116 | Enumerable.Skip: the count removed is the requested one, clamped to 0 and to the length |
| ProductService.Take | E-Commerce_Inventory/E-Commerce_Inventory/Infrastructure/Services/ProductService.cs:117 | Enumerable.Take: the count kept is the requested one, clamped to 0 and to the length |
| ProductService.CeilDivBounds | E-Commerce_Inventory/E-Commerce_Inventory/Infrastructure/Services/ProductService.cs:113 | TotalPages is the least page count that holds every item: count ≤ pages·limit < count + limit |
| ProductService.PageSlice | E-Commerce_Inventory/E-Commerce_Inventory/Infrastructure/Services/ProductService.cs:115-118 | a page is the slice from (Page−1)·Limit to Page·Limit, clamped to the length, so it holds at most Limit items |
| ProductService.PageNonEmpty | E-Commerce_Inventory/E-Commerce_Inventory/Infrastructure/Services/ProductService.cs:113-118 | a page has items exactly when its number is at most TotalPages |
| ProductService.HasNextPageMeansMore | E-Commerce_Inventory/E-Commerce_Inventory/Infrastructure/Services/ProductService.cs:148 | Page < TotalPages exactly when the pages up to this one leave items over |
| ProductService.PagesCoverAll | E-Commerce_Inventory/E-Commerce_Inventory/Infrastructure/Services/ProductService.cs:113-118 | pages 1 to TotalPages, concatenated, are the whole filtered sequence, each item once and in order |
| ProductService.PageMatches | E-Commerce_Inventory/E-Commerce_Inventory/Infrastructure/Services/ProductService.cs:97-118 | every product on any page matches the query's filters |
| ProductService.ToViews | E-Commerce_Inventory/E-Commerce_Inventory/Infrastructure/Services/ProductService.cs:122-139 | one DTO per product of the page, in order, each with its category's name or "Unknown" |
| ProductService.GetAll | E-Commerce_Inventory/E-Commerce_Inventory/Infrastructure/Services/ProductService.cs:89-168 | TotalCount is the size of the filtered sequence, TotalPages its ceiling division by Limit, and the data is the requested page (at most Limit), every item matching the filters; HasNextPage holds exactly when items remain after this page, HasPreviousPage exactly when Page > 1 |
| CategoryService.Validate | E-Commerce_Inventory/E-Commerce_Inventory/Infrastructure/Services/CategoryService.cs:288-316 | no errors exactly when the input is acceptable; each message appears exactly when its rule fails; at most two, the description error last |
| CategoryService.Renamed | E-Commerce_Inventory/E-Commerce_Inventory/Infrastructure/Services/CategoryService.cs:205-207 | the updated category takes name and description from the request and UpdatedAt from the clock, and keeps its id and CreatedAt |
| CategoryService.Create | E-Commerce_Inventory/E-Commerce_Inventory/Infrastructure/Services/CategoryService.cs:17-81 | a validation error, or an existing name equal after lowering, changes nothing; otherwise one category is appended, and the product count reported as 0 is its real count |
| CategoryService.GetAll | E-Commerce_Inventory/E-Commerce_Inventory/Infrastructure/Services/CategoryService.cs:83-121 | one DTO per category, in table order, each with the number of products linked to it |
| CategoryService.GetById | E-Commerce_Inventory/E-Commerce_Inventory/Infrastructure/Services/CategoryService.cs:123-165 | "Category not found" exactly when no category has the id; otherwise its view, with a product count that is positive exactly when a product is linked |
| CategoryService.Update | E-Commerce_Inventory/E-Commerce_Inventory/Infrastructure/Services/CategoryService.cs:167-240 | validation, then the missing id, then another category with the name up to case, each failure changing nothing; success changes only Name, Description and UpdatedAt of that category and reports its count |
| CategoryService.Delete | E-Commerce_Inventory/E-Commerce_Inventory/Infrastructure/Services/CategoryService.cs:242-286 | an absent id gives "Category not found" and a category with linked products gives "Cannot delete category with linked products", neither changing anything; otherwise exactly that category is removed |
| CategoryService.RenameToCaseVariantAllowed | E-Commerce_Inventory/E-Commerce_Inventory/Infrastructure/Services/CategoryService.cs:193-194 | renaming a category to a case variant of its own name finds no clash |
| CategoryService.RenameRefusedOnlyForOthers | E-Commerce_Inventory/E-Commerce_Inventory/Infrastructure/Services/CategoryService.cs:193-203 | a rename is refused exactly when a category with another id has the name up to case |
| FileService.GetExtension | E-Commerce_Inventory/E-Commerce_Inventory/Infrastructure/Services/FileService.cs:150 | Path.GetExtension: the suffix from the last dot of the last path segment when at least one character follows it, else "" exactly when there is no such suffix |
| FileService.ExtensionOfLower | E-Commerce_Inventory/E-Commerce_Inventory/Infrastructure/Services/FileService.cs:150 | lower-casing a name and taking its extension commute |
| FileService.IsValidImageFile | E-Commerce_Inventory/E-Commerce_Inventory/Infrastructure/Services/FileService.cs:145-153 | an accepted file is present, non-empty and at most 5·1024·1024 bytes, with its lower-cased extension and content type on the allow-lists |
| FileService.ValidityIgnoresCase | E-Commerce_Inventory/E-Commerce_Inventory/Infrastructure/Services/FileService.cs:150-152 | the verdict is the same for the file with its name and content type lower-cased |
| FileService.AcceptedNameIsImage | E-Commerce_Inventory/E-Commerce_Inventory/Infrastructure/Services/FileService.cs:150-151 | an accepted file's lower-cased name ends in one of .jpg, .jpeg, .png, .gif, .webp |
| FileService.AcceptedTypeIsImage | E-Commerce_Inventory/E-Commerce_Inventory/Infrastructure/Services/FileService.cs:151-152 | an accepted file's lower-cased content type is an image/ type |
| FileService.GetBaseUrl | E-Commerce_Inventory/E-Commerce_Inventory/Infrastructure/Services/FileService.cs:22-26 | outside a request the base is "http://localhost"; every base holds the ':' of its scheme |
| FileService.GetImageUrl | E-Commerce_Inventory/E-Commerce_Inventory/Infrastructure/Services/FileService.cs:28-31 | the URL starts with the base URL |
| FileService.UploadImage | E-Commerce_Inventory/E-Commerce_Inventory/Infrastructure/Services/FileService.cs:33-78 | an invalid file gives the invalid-file message; otherwise success with the URL base + "/uploads/" + folder + "/" + guid + an allowed extension |
| FileService.UploadFileName | E-Commerce_Inventory/E-Commerce_Inventory/Infrastructure/Services/FileService.cs:50 | the stored name is the Guid followed by the original extension lower-cased, and keeps nothing else of the original name |
| FileService.UploadKeepsExtension | E-Commerce_Inventory/E-Commerce_Inventory/Infrastructure/Services/FileService.cs:50 | the stored name's extension is the original extension, lower-cased |
| FileService.UploadedNameIsAllowed | E-Commerce_Inventory/E-Commerce_Inventory/Infrastructure/Services/FileService.cs:50 | an accepted upload is stored under an allowed extension |
| FileService.RemoveAllAbsent | E-Commerce_Inventory/E-Commerce_Inventory/Infrastructure/Services/FileService.cs:91 | string.Replace with nothing to replace returns the string unchanged |
| FileService.RemoveAll | E-Commerce_Inventory/E-Commerce_Inventory/Infrastructure/Services/FileService.cs:91 | string.Replace with "" never lengthens the string (RemoveAllAbsent and RemoveAllAfterPrefix give its result on the URLs deletion sees) |
| FileService.RemoveAllAfterPrefix | E-Commerce_Inventory/E-Commerce_Inventory/Infrastructure/Services/FileService.cs:91 | a URL made of the base followed by a rest in which the base does not occur becomes exactly that rest |
| FileService.TrimStart | E-Commerce_Inventory/E-Commerce_Inventory/Infrastructure/Services/FileService.cs:91 | the result is a suffix that does not start with the character, and everything dropped was that character |
| FileService.DeleteImage | E-Commerce_Inventory/E-Commerce_Inventory/Infrastructure/Services/FileService.cs:80-108 | always success with true; a file is looked at exactly when the URL is non-empty and starts with the base URL, and its path is the URL with the base removed everywhere and leading '/' trimmed |
| FileService.ForeignUrlIgnored | E-Commerce_Inventory/E-Commerce_Inventory/Infrastructure/Services/FileService.cs:88-89 | a URL that does not start with the base URL touches no file |
| FileService.DeleteFindsImage | E-Commerce_Inventory/E-Commerce_Inventory/Infrastructure/Services/FileService.cs:87-92 | the URL GetImageUrl builds leads deletion back to uploads/folder/fileName under the web root |
| FileService.UploadThenDelete | E-Commerce_Inventory/E-Commerce_Inventory/Infrastructure/Services/FileService.cs:46-92 | deleting by the URL an upload returned targets the file the upload wrote |

## Left out

- JWT creation and validation (`GenerateAccessToken`, `ValidateTokenAsync`) use a foreign HMAC-SHA256 library. The signer is a function parameter, and only the expiry, now plus the configured minutes, is kept.
- The random generators (`RandomNumberGenerator`, `RNGCryptoServiceProvider`, `Guid.NewGuid`) are not modelled; their outputs are parameters.
- PBKDF2 (`Rfc2898DeriveBytes`, section 5.2 of RFC 8018) is an uninterpreted deterministic key derivation.
- `IsValidEmail` (the MailAddress parser) is an uninterpreted predicate.
- `IsValidImageUrl` (Uri.TryCreate) and `ValidateImageUrlAsync` (an HTTP HEAD request) are library parsing and network I/O, and are not part of this model.
- File system I/O is not modelled: directory creation, the FileStream write, `File.Exists` and `File.Delete`. `DeleteImage` says which path would be deleted; `UploadImage` does not model the write, or the exception it may throw.
- Controllers, `UnitOfWork` beyond save and dispose, and `async`/`Task` are HTTP routing and plumbing.
- The catch-all exception branches of every flow are not modelled. The one exception kept is VerifyPassword's throw on a bad stored hash, which Login turns into its generic fault.
- `SearchAsync` and `CreateWithFileAsync` are declared and called but have no implementation in the source.
- Message: ApiResponseDto is not part of this model. An envelope whose message the source leaves unset carries "" here.
- String comparison: comparisons run as SQL in the source, where the database collation may differ. The model compares code units exactly.
- `ToLower`, `ToLowerInvariant`: only the ASCII letters are lowered.
- String lengths count characters, not UTF-16 code units.
- `Time`: timestamps are whole seconds. `AddDays(Convert.ToDouble(...))` and `AddMinutes` take whole numbers of days and minutes.
- `Product.price`: `decimal(18,2)` rounding in the database is not modelled; the price is an exact `real`.
- Identifiers: the `int` identity columns are unbounded counters, so 32-bit overflow of ids and of `(Page - 1) * Limit` is not modelled.
- `User.Id` is a `Guid` in the source and `RefreshToken.UserId` an `int`; both are the same abstract identifier here.
- `AuthService.Register`: the object initializer on private setters at AuthService.cs:56-62 would leave `IsActive` at its default, so the stored row carries `false`. The initializer does not compile as written against the entity's private setters.
- `Entities.User.RemoveRefreshToken`: `List.Remove` compares tokens by reference; the model compares records by value.
- `FileService.DeleteImage`: the `imageUrl.StartsWith(baseUrl)` test (FileService.cs:88) is modelled as an ordinal prefix test. .NET compares by the current culture, which skips ignorable code points such as U+00AD; the two agree under invariant globalization. `FileService.ForeignUrlIgnored` inherits the ordinal reading.
- `AuthService.FindUser`, `AuthService.FindToken`, `ProductService.GetAll`: the queries have no ORDER BY, and the model reads rows in one fixed table order. `ProductService.PagesCoverAll` covers every item exactly once only if the database returns the same order on every page request, which SQL does not promise.
- `FileService.GetExtension`: only '/' is a directory separator (Unix); Windows would also split at '\' and ':'.
- `ProductService.GetAll`: a Limit below 1 is excluded. There the page count is a floating-point division by zero or a negative quotient, converted to int, which is not modelled. A Page below 1 is handled: it skips nothing.
- `AuthService.AuthStore`: the flows start from a unit of work with nothing pending, as a scoped context does at the start of each request.

## Findings

| source | as written | input that shows it | evidently intended | confidence | as-written member | corrected member |
|---|---|---|---|---|---|---|
| E-Commerce_Inventory/E-Commerce_Inventory/Infrastructure/Services/AuthService.cs:361 | Register and Login add the new refresh token to the unit of work, and no SaveChangesAsync follows in either flow. Register's only save, at :65, runs before the token exists; Login has none. The scoped context is disposed with the token unsaved. | a successful Login or Register, then a Refresh with the returned refresh token in the next request | the token handed to the client is stored, so it can later be refreshed and revoked | not executed; it holds unless the repository's AddAsync saves by itself, and that repository is not part of this model | AuthService.LoginThenRefresh | AuthService.LoginCommittedThenRefresh |
