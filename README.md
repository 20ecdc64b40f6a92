# EXPORTCOUPOLE product catalogue, modelled in Dafny

EXPORTCOUPOLE is the export catalogue site of a food exporter. It has two parts:

- an Express API with a MySQL store, for public product pages, inquiries and an admin area;
- a React / Next.js front end in three languages (English, French and Arabic).

This project models the catalogue's core and proves properties of the model:

- **Admin write path.** Products are created and updated by delete-then-reinsert of:
  - their specification and packaging rows, each stamped with its list position;
  - their certification links.

  Products can also be deleted. Images can be uploaded, which replaces all of a product's images, and removed.
- **Read paths.** The public and admin listings filter, order by featured then newest, project one language and resolve the primary image. Detail lookup is by active slug or by id, and there is a list of the distinct categories.
- **Other server routes:**
  - inquiries and their admin status updates;
  - the admin certification table;
  - login;
  - the migration from the static catalogue, the seed script and the schema runner.
- **Next.js API routes.** These are the same reads and the login, behind bearer-token checks.
- **Client logic:**
  - the language context;
  - the add and edit forms and the FormData body of the Next.js add page;
  - the dashboard's thumbnail, counts, upload and logout;
  - the category filter of the product list;
  - the image and field choice of the product page;
  - the static product table.

How the model is organised:

- Server tables that the routes change in place are classes: `AdminProducts.ProductStore`, `Inquiries.InquiryTable` and `AdminCertifications.CertificationTable`. Their methods modify the fields and say what the new state is.
- A transaction builds its new state as a value (a `Schema.Catalog`) and commits it at the end.
- Each method takes an optional index `failAt`, the statement that raises. When a statement fails, the method answers 500 and the store is unchanged.
- Loops in the source are methods proved against a specification function.
- The pure parts (filters, orderings, payload builders, React state updates) are functions, with lemmas relating them to each other and across the client/server boundary. Examples: what the edit form saves is what the server reads back, and the count on the dashboard is the length of the admin list filtered by status.
- Hashing, token signing and verification, the mailer, the clock and the filesystem are parameters: oracle functions, flags or timestamps.

## Model

| member | source | states |
|---|---|---|
| AdminProducts.DefaultFeatured | server/src/routes/admin/products.ts:120 | the stored `featured` flag is true exactly when the body gave `true`; missing means false |
| AdminProducts.DefaultActive | server/src/routes/admin/products.ts:120 | the stored `active` flag is false exactly when the body gave `false`; missing means true |
| AdminProducts.PrimaryFlag | server/src/routes/admin/products.ts:276 | an upload is primary exactly when the body field is the string `'true'` |
| AdminProducts.InsertLines | server/src/routes/admin/products.ts:126-151 | the insert loop succeeds iff none of its statements raises, and then the rows are the entries in order, each stamped with its index as order |
| AdminProducts.InsertLinks | server/src/routes/admin/products.ts:154-161 | the link loop succeeds iff none of its inserts raises, and then the links are exactly the supplied ids in order |
| AdminProducts.ReplaceLines | server/src/routes/admin/products.ts:203-230 | the delete-then-reinsert of one child table fails iff its delete or one insert raises, or rows are inserted for a product that does not exist; on success the rows are the stamped list |
| AdminProducts.ReplaceLinks | server/src/routes/admin/products.ts:233-241 | the same for certification links: on success exactly the supplied ids |
| AdminProducts.RunCreate | server/src/routes/admin/products.ts:100-172 | the create transaction rolls back iff the slug is taken or a statement raises; otherwise the state is the catalogue with the new product, its stamped lists, its links and no images |
| AdminProducts.RunUpdate | server/src/routes/admin/products.ts:175-252 | the update transaction rolls back iff a statement raises, the slug belongs to another product, a flag is missing, or child rows target an unknown id; otherwise the state is the catalogue with the row revised and the three child collections replaced |
| AdminProducts.UnlinkAll | server/src/routes/admin/products.ts:300-310 | the unlink loop removes every old file except those whose unlink raises, and a raised unlink does not stop the loop |
| AdminProducts.RunUpload | server/src/routes/admin/products.ts:278-323 | the upload transaction commits iff no statement raises and the product exists; the files on disk afterwards are the stored upload plus the old files not unlinked |
| AdminProducts.RawPrimary | server/src/routes/admin/products.ts:19 | the `primary_image` column is null iff the product has no primary image, else the path of one of its primary images |
| AdminProducts.AdminListingSound | server/src/routes/admin/products.ts:13-36 | the admin list holds every product exactly once, inactive ones too, newest first; each entry's images are exactly the product's image rows with the base URL, primary ones first, and its primary path is null iff the product has no primary image |
| AdminProducts.AdminDetail | server/src/routes/admin/products.ts:44-97 | 404 iff no product has the id; otherwise that product, its specification and packaging rows, exactly the linked certifications, and as images its stored image rows, each as often as stored, sorted primary first and then by display order, with the base URL prefixed and without the display order |
| AdminProducts.AdminImagesInOrder | server/src/routes/admin/products.ts:59-67 | the admin image list holds exactly the prefixed views of the product's images, primary ones first |
| AdminProducts.ProductStore.Create | server/src/routes/admin/products.ts:100-172 | keeps the invariant; 500 with the state unchanged iff the transaction fails; otherwise 201 with the new id and the created state |
| AdminProducts.ProductStore.Update | server/src/routes/admin/products.ts:175-252 | keeps the invariant; 500 with the state unchanged iff the transaction fails; otherwise 200 and the updated state, the flags written as given |
| AdminProducts.ProductStore.Delete | server/src/routes/admin/products.ts:255-263 | keeps the invariant; on success the product and all its child rows and images are gone, the rest is unchanged |
| AdminProducts.ProductStore.UploadImage | server/src/routes/admin/products.ts:266-339 | no file gives 400 and changes nothing; a failed transaction gives 500 and restores the rows, though unlinked files stay gone; success gives 201 with the new id, the prefixed URL and the flag, no display order, and the product's image set becomes the one new row |
| AdminProducts.ProductStore.DeleteImage | server/src/routes/admin/products.ts:342-351 | keeps the invariant; on success only the row matching both the image id and the product id is gone |
| AdminProducts.ProductStore.AdminList | server/src/routes/admin/products.ts:13-36 | the per-product loop builds exactly the admin listing |
| AdminProducts.CreatedValid | server/src/routes/admin/products.ts:100-172 | a create keeps the invariant: distinct ids and slugs below the counter, child collections keyed by existing products, at most one primary image per product |
| AdminProducts.UpdatedValid | server/src/routes/admin/products.ts:175-252 | an update keeps the invariant |
| AdminProducts.RemovedValid | server/src/routes/admin/products.ts:255-263 | a delete keeps the invariant |
| AdminProducts.UploadedValid | server/src/routes/admin/products.ts:266-339 | an upload keeps the invariant |
| AdminProducts.ImageRemovedValid | server/src/routes/admin/products.ts:342-351 | an image delete keeps the invariant |
| AdminProducts.CreateReadBack | server/src/routes/admin/products.ts:115-161 | after a create, reading the product back gives its specifications and packaging in submitted order with order index equal to position, links to exactly the submitted ids, the flag defaults, and no images |
| AdminProducts.UpdateReadBack | server/src/routes/admin/products.ts:191-241 | after an update, the child lists read back are exactly the submitted ones in order (a missing list leaves the collection empty), the links are exactly the submitted ids, the flags are as given, and the creation time is kept |
| AdminProducts.UpdatedChildRows | server/src/routes/admin/products.ts:201-241 | after an update the product's specification, packaging and link rows are the submitted lists stamped in order |
| AdminProducts.UpdatedRowRead | server/src/routes/admin/products.ts:191-198 | the row stored under the id after an update carries the submitted fields, the given flags and the old creation time |
| AdminProducts.UpdatedIds | server/src/routes/admin/products.ts:191-198 | the updated product's id is still in the table |
| AdminProducts.DetailOfUpdated | server/src/routes/admin/products.ts:44-97 | the admin detail of a catalogue holding an update's rows is found, reads back the submitted lists in order and exactly the linked certifications, and shows the given flags, slug, update time and the old creation time |
| AdminProducts.UploadLeavesOneImage | server/src/routes/admin/products.ts:286-322 | after a committed upload the product has exactly one image row, primary iff the field is `'true'`, with the given display order; other products' images and all other tables are unchanged |
| AdminProducts.UploadRollbackKeepsUnlink | server/src/routes/admin/products.ts:300-310 | once the old rows are deleted, an old file whose unlink succeeded is gone even if the transaction later rolls back |
| AdminProducts.ImageRemovedOnly | server/src/routes/admin/products.ts:344-345 | the image delete removes exactly the rows of that product with that image id; every other product and table is unchanged |
| AdminProducts.FilterKeepsOnePrimary | server/src/routes/admin/products.ts:344-345 | filtering rows out of an image list with at most one primary image leaves at most one |
| PublicProducts.QueryLocale | server/src/routes/products.ts:9-16 | an absent `lang` means English; a given code names exactly the locale whose column name it matches with ASCII case folded (MySQL column names ignore case), and any other code fails the query |
| PublicProducts.PastedVerbatim | server/src/routes/products.ts:11-17 | as written, the `lang` value appears in the statement text right after `p.title_`, unescaped |
| PublicProducts.LangInjectsSql | server/src/routes/products.ts:14-16 | as written, a `lang` that names no column pastes a sub-select of `users.password_hash` into the statement |
| PublicProducts.SelectList | server/src/routes/products.ts:11-17 | corrected: the column list is built only for a code that names a locale, and is then one of three fixed texts; for a lower-case code it is the one the source builds |
| PublicProducts.LowerCodeNamesItself | server/src/routes/products.ts:14-16 | a lower-case code that names a locale is that locale's suffix, so the fixed column list equals the pasted one |
| PublicProducts.InjectionRefused | server/src/routes/products.ts:14-16 | corrected: the injecting `lang` yields no statement |
| PublicProducts.BuildFilter | server/src/routes/products.ts:23-38 | the appended clauses hold of a product exactly when the route's documented filter admits it: the category on the English column, `featured` and `active` as `=== 'true'`, active only by default |
| PublicProducts.FeaturedThenNewestTotalPreorder | server/src/routes/products.ts:40 | `featured DESC, created_at DESC` is a total preorder, so the sorted list is well defined up to ties |
| PublicProducts.Project | server/src/routes/products.ts:12-17 | the listed item carries the id, the chosen language's title, category and description, and the given image |
| PublicProducts.ResolveImages | server/src/routes/products.ts:48-54 | the loop gives each row its language's projection with its primary image URL |
| PublicProducts.List | server/src/routes/products.ts:7-61 | a language code that names no column in any letter case gives 500; otherwise 200 with the filtered, ordered, projected listing in that locale |
| PublicProducts.ListedRowsSound | server/src/routes/products.ts:23-42 | the list holds each admitted product exactly once (a permutation of the filtered rows), sorted by featured then newest, and nothing else |
| PublicProducts.DefaultListIsActive | server/src/routes/products.ts:33-38 | without an `active` parameter no inactive product is listed |
| PublicProducts.ListingImages | server/src/routes/products.ts:48-54 | each item's image is null iff its product has no primary image, else the base URL plus the path of one of its primary images |
| PublicProducts.FindActiveBySlug | server/src/routes/products.ts:69-79 | finds an active product with the slug iff one exists |
| PublicProducts.Detail | server/src/routes/products.ts:64-136 | 404 iff no active product has the slug; otherwise that product; its images are exactly its stored image rows with the base URL prefixed, primary first then by display order; specifications and packaging in order-index order; its certifications are exactly the stored ones it links to |
| PublicProducts.ImagesInOrderSorted | server/src/routes/products.ts:91-99 | the returned images are sorted primary first, then by ascending display order |
| PublicProducts.Distinct | server/src/routes/products.ts:144 | `DISTINCT` keeps every value and repeats none |
| PublicProducts.CategoryValues | server/src/routes/products.ts:144-146 | a value is collected iff some active product has it as its non-null category in that language |
| PublicProducts.CategoriesSound | server/src/routes/products.ts:143-150 | the category list names each non-null category of an active product exactly once, in ascending order |
| PublicProducts.CategoriesRoute | server/src/routes/products.ts:139-155 | a language code that names no column in any letter case gives 500, otherwise 200 with that locale's list |
| NextProducts.NextLocale | src/app/api/products/route.ts:12-18 | an absent or empty `lang` means English; another code names exactly the locale whose column name it matches with ASCII case folded, or fails the query |
| NextProducts.BuildConditions | src/app/api/products/route.ts:14-32 | the first condition is always "active"; the conditions hold exactly when the product is active, has the category in the requested language (when one is given) and is featured when `featured` is `'true'` |
| NextProducts.List | src/app/api/products/route.ts:7-55 | a language code that names no column in any letter case gives 500; otherwise 200 with the active, filtered, ordered listing with images |
| NextProducts.NextListingSound | src/app/api/products/route.ts:14-48 | a permutation of the admitted rows, sorted featured first then newest, and only active products ever |
| NextProducts.FeaturedOnlyWhenTrue | src/app/api/products/route.ts:30-32 | any `featured` value other than `'true'` filters exactly like no value |
| NextAdminProducts.VerifyToken | src/app/api/admin/products/route.ts:9-21 | null unless the header starts with `Bearer `; then the verdict on the text after those seven characters |
| NextAdminProducts.BearerRoundTrip | src/app/api/admin/products/route.ts:9-21 | a header built from a token is accepted exactly when the token is |
| NextAdminProducts.List | src/app/api/admin/products/route.ts:23-56 | 401 iff the token is refused (no query is run); otherwise every product, newest first, in English, with its primary image |
| NextAdminProducts.AdminListingSound | src/app/api/admin/products/route.ts:30-39 | the rows are a permutation of all products, inactive ones included, newest first, and the items carry their English title |
| NextAdminCertifications.Summaries | src/app/api/admin/certifications/route.ts:30-32 | each returned certification holds only its id, name and English description |
| NextAdminCertifications.List | src/app/api/admin/certifications/route.ts:23-39 | 401 iff the token is refused; otherwise the summaries of the certifications in name order |
| NextAdminCertifications.ListSound | src/app/api/admin/certifications/route.ts:30-32 | one summary per certification, names in ascending order; on a table with unique names and ids no name and no id appears twice |
| Inquiries.NewInquiry | server/src/routes/inquiries.ts:16-20 | the inserted row has status `new`, no notes, the required fields from the body, and null phone and products fields exactly when they are empty |
| Inquiries.InquiryTable.Submit | server/src/routes/inquiries.ts:8-63 | a missing required field gives 400 and no insert; a failed insert gives 500 and no change; otherwise 201 with the new id and exactly one row appended, whether or not the mail fails |
| Inquiries.SubmitOutcome | server/src/routes/inquiries.ts:12-20 | a body is complete iff each of the five required fields is a non-empty text; an empty, null or missing one is refused; phone and product interest never decide it |
| AdminInquiries.List | server/src/routes/admin/inquiries.ts:11-31 | an inquiry is listed iff it is stored and, for a truthy `status`, has that status |
| AdminInquiries.ListSorted | server/src/routes/admin/inquiries.ts:23 | the list is newest first, and without a status it is a permutation of all inquiries |
| AdminInquiries.FindInquiry | server/src/routes/admin/inquiries.ts:36 | finds a row with the id iff one exists |
| AdminInquiries.Get | server/src/routes/admin/inquiries.ts:34-47 | 404 iff no inquiry has the id, otherwise that inquiry |
| AdminInquiries.BuildAssignments | server/src/routes/admin/inquiries.ts:56-64 | one SET entry for a truthy status and one for a defined `notes` (the empty string included), status first |
| AdminInquiries.Patched | server/src/routes/admin/inquiries.ts:56-75 | the patched row differs from the old one only in status (when truthy) and notes (when defined) |
| AdminInquiries.ApplyUpdates | server/src/routes/admin/inquiries.ts:72-75 | the UPDATE applies the SET list to the rows with the id and leaves every other row as it is |
| AdminInquiries.AssignmentsMeanPatch | server/src/routes/admin/inquiries.ts:56-75 | applying the built SET list is the same as the direct statement of the patch |
| AdminInquiries.Patch | server/src/routes/admin/inquiries.ts:50-82 | neither field gives 400 and no statement; a failed query gives 500; otherwise every row with the id is patched and every other row is unchanged |
| AdminInquiries.Delete | server/src/routes/admin/inquiries.ts:85-93 | on success the rows are the old ones without that id, order kept |
| AdminInquiries.DeleteRemovesOnly | server/src/routes/admin/inquiries.ts:87 | after a delete no row has the id and every other row is kept |
| AdminCertifications.NewCertification | server/src/routes/admin/certifications.ts:30-33 | the inserted row has the given non-empty name, and each optional column is NULL exactly when its field is empty or missing |
| AdminCertifications.Bound | server/src/routes/admin/certifications.ts:47-50 | a present field is bound as NULL exactly when it is `null`, else as its text, the empty string included |
| AdminCertifications.CertsUpdated | server/src/routes/admin/certifications.ts:47-50 | the update keeps the number of rows |
| AdminCertifications.CertificationTable.List | server/src/routes/admin/certifications.ts:11-19 | 500 iff the query raises, else the certifications in name order |
| AdminCertifications.CertificationTable.Create | server/src/routes/admin/certifications.ts:22-40 | a missing or empty name gives 400 and no insert; a failed insert (duplicate name or raised query) gives 500 and no change; otherwise 201 and exactly the new row appended |
| AdminCertifications.CertificationTable.Update | server/src/routes/admin/certifications.ts:43-57 | keeps unique ids and names; 500 with no change iff the statement raises; otherwise 200 and the row with that id rewritten |
| AdminCertifications.CertificationTable.Delete | server/src/routes/admin/certifications.ts:60-68 | on success the table without the rows of that id |
| AdminCertifications.UpdatedKeepsInvariant | server/src/routes/admin/certifications.ts:47-50 | a successful update keeps ids and names unique |
| AdminCertifications.ListSound | server/src/routes/admin/certifications.ts:13 | the list is a permutation of the table ordered by name; on a table with unique names and ids no name and no id appears twice, so the names are strictly ascending |
| AdminCertifications.UpdateOnlyThatRow | server/src/routes/admin/certifications.ts:47-50 | all five columns of the row with the id come from the body (`null` as NULL, an empty string kept); every other row is unchanged and the id set is the same |
| AdminCertifications.CreateAndUpdateDifferOnEmpty | server/src/routes/admin/certifications.ts:32-49 | an empty logo URL is stored as NULL by create but as the empty string by update |
| AdminCertifications.DeleteRemovesOnly | server/src/routes/admin/certifications.ts:62 | the delete removes exactly the rows with that id |
| Auth.FindByEmail | server/src/routes/auth.ts:17 | finds a user with the email iff one exists |
| Auth.Login | server/src/routes/auth.ts:9-53 | 400 for a missing email or password; 500 when the query raises; success iff the user exists and the password matches its hash; every 401 says `Invalid credentials`; on success the claims are exactly the user's id, email and role, signed with the 7-day expiry |
| Auth.SameRefusal | server/src/routes/auth.ts:19-28 | an unknown email and a wrong password give the identical 401 reply |
| Auth.TokenOf | server/src/routes/auth.ts:59 | the token is the second space-separated piece of the header when there is one, and contains no space |
| Auth.Verify | server/src/routes/auth.ts:56-70 | no token (or an empty one) gives 401 `Token required`; a refused token gives 403; otherwise 200 with the decoded payload |
| Auth.BearerToken | server/src/routes/auth.ts:59 | for `Bearer <token>` with a non-empty token free of spaces, exactly that token is checked |
| Base.OrDefault | src/app/api/admin/auth/login/route.ts:7-8 | an environment value is used when set and non-empty, else the default (also `JWT_SECRET` in server/src/routes/auth.ts:30 and `ADMIN_EMAIL` in server/src/db/seed.ts:14) |
| NextLogin.PasswordAccepted | src/app/api/admin/auth/login/route.ts:30-41 | with `ADMIN_PASSWORD` set the password is checked against it as a hash; otherwise only the literal `admin123` is accepted |
| NextLogin.Login | src/app/api/admin/auth/login/route.ts:11-67 | 400 for a missing email or password; success iff the email is the administrator's and the password is accepted; every other refusal is the same 401; on success the claims are the administrator's email and role `admin`, with the 24-hour expiry |
| NextLogin.SameRefusal | src/app/api/admin/auth/login/route.ts:24-46 | a wrong email and a wrong password give the identical 401 reply |
| NextLogin.DevelopmentFallback | src/app/api/admin/auth/login/route.ts:8-41 | with no environment set, the default administrator gets in with `admin123` and with nothing else |
| MigrateProducts.NameMapLastWins | server/src/db/migrate-products.ts:97-101 | the certification map holds exactly the names read, each mapped to the id of the last row with that name |
| MigrateProducts.BuildCertMap | server/src/db/migrate-products.ts:97-101 | the `forEach` loop builds exactly that map |
| MigrateProducts.KnownIds | server/src/db/migrate-products.ts:144-152 | the linked ids are exactly the map's non-zero ids for names on the list; unknown names add nothing |
| MigrateProducts.LinkKnown | server/src/db/migrate-products.ts:144-152 | the link loop inserts one link per known name, in list order, and fails iff one of those inserts raises |
| MigrateProducts.MigrateOne | server/src/db/migrate-products.ts:106-152 | one entry fails iff its slug is taken or one of its statements raises; otherwise its row, stamped child lists and known links are added |
| MigrateProducts.Migrate | server/src/db/migrate-products.ts:89-171 | the whole migration rolls back iff some statement raises; otherwise the state is every entry inserted in order |
| MigrateProducts.MigratedLayout | server/src/db/migrate-products.ts:117-152 | the id counter advances by the number of entries, and entry i gets the i-th fresh id, specifications and packaging stamped with their list position, links to exactly its known certifications, and no images |
| MigrateProducts.LaidOutKept | server/src/db/migrate-products.ts:117-152 | an entry laid out earlier stays laid out when the next entry is inserted |
| MigrateProducts.LaidOutLast | server/src/db/migrate-products.ts:117-152 | the entry just inserted is laid out under its fresh id |
| MigrateProducts.MigratedValid | server/src/db/migrate-products.ts:89-157 | a committed migration keeps the catalogue invariant |
| MigrateProducts.MigratedReadBack | server/src/db/migrate-products.ts:120-129 | reading a migrated entry's specifications back in order-index order gives its list |
| Seed.SeedCerts | server/src/db/seed.ts:37-42 | the certification loop fails iff one of its upserts raises, and otherwise gives the tables with every seed upserted in order |
| Seed.SeedPages | server/src/db/seed.ts:69-74 | the same for the page content upserts |
| Seed.SeedDatabase | server/src/db/seed.ts:7-87 | the whole seed rolls back iff some statement raises; otherwise the user, certification and page upserts are all applied |
| Seed.UpsertCertFacts | server/src/db/seed.ts:38-41 | after an upsert some row has the name, every row with it has the seeded English description, and rows of other names are as they were |
| Seed.CertsSeededFacts | server/src/db/seed.ts:37-42 | after the loop every seeded name is present with its seeded description |
| Seed.UpsertCertStable | server/src/db/seed.ts:39 | upserting a name already present with that description changes nothing |
| Seed.CertsReseeded | server/src/db/seed.ts:37-42 | running the certification loop again over its own result changes nothing |
| Seed.UpsertPageFacts | server/src/db/seed.ts:70-73 | after an upsert the key is present with the seeded content, and rows of other keys are as they were |
| Seed.PagesSeededFacts | server/src/db/seed.ts:69-74 | after the loop every seeded key is present with its seeded content |
| Seed.UpsertPageStable | server/src/db/seed.ts:71 | upserting a key already present with that content changes nothing |
| Seed.PagesReseeded | server/src/db/seed.ts:69-74 | running the page loop again over its own result changes nothing |
| Seed.UpsertUserTwice | server/src/db/seed.ts:18-21 | a second user upsert only replaces the password hash |
| Seed.CertsSeededUsers | server/src/db/seed.ts:37-42 | the certification upserts leave the users and pages alone |
| Seed.PagesSeededOthers | server/src/db/seed.ts:69-74 | the page upserts leave the users and certifications alone |
| Seed.SeedTwice | server/src/db/seed.ts:7-87 | seeding twice equals seeding once with the second password hash: the same certification names and page rows, only the hash changes |
| Seed.SeedCertificationsDistinct | server/src/db/seed.ts:24-35 | the seed list holds ten entries with pairwise distinct names |
| Connection.Kept | server/src/db/connection.ts:45-46 | a piece is kept exactly when its trimmed text is non-empty, and then as that trimmed text |
| Connection.StatementsClean | server/src/db/connection.ts:43-46 | every statement is non-empty and trimmed |
| Connection.SplitStatements | server/src/db/connection.ts:43-46 | every statement of the split schema is non-empty, trimmed and free of `;` |
| Connection.StatementsKeepOut | server/src/db/connection.ts:44-46 | trimming and dropping pieces never brings back a character the pieces lacked |
| Connection.StatementsOfClean | server/src/db/connection.ts:45-46 | already clean pieces pass through unchanged |
| Connection.StatementsAppend | server/src/db/connection.ts:45-46 | the pieces are handled one by one, so the order of the statements is the order of the text |
| Connection.SplitJoinedStatements | server/src/db/connection.ts:43-46 | clean statements joined with `;` split back into exactly those statements, in order |
| Connection.BlankPiecesDropped | server/src/db/connection.ts:46 | a trailing `;` adds no statement |
| Connection.Database.constructor | server/src/db/connection.ts:40-71 | the statements are the split schema, the flag starts down, nothing has run and the process is up |
| Connection.Database.RunStatements | server/src/db/connection.ts:48-50 | the statements are sent in order; the loop stops at the first one that raises after sending those before it |
| Connection.Database.InitDatabase | server/src/db/connection.ts:15-68 | with tables present nothing runs; with none, the schema then the seed; as written the import starts a second seed run and ends the process, so it succeeds only when neither seed raises first; it fails iff a statement raises, the seed raises, or the exit comes first |
| Connection.Database.EnsureInitialized | server/src/db/connection.ts:73-82 | after the process has ended nothing runs; once the flag is up nothing runs again; production skips the bootstrap but raises the flag; a raised bootstrap leaves the flag down; the seed runs only on an empty database outside production, and on a first boot exactly once (guarded) or twice and the process ends (as written) |
| Connection.Database.Query | server/src/db/connection.ts:97-101 | the statement reaches the pool iff the bootstrap has succeeded, with the same seed and exit facts as the bootstrap |
| Connection.Database.GetConnection | server/src/db/connection.ts:103-106 | a connection is handed out iff the bootstrap has succeeded |
| Connection.TwoQueries | server/src/db/connection.ts:71-101 | once one query has gone through without seeding, the next runs no bootstrap and both statements reach the pool in order; one that seeded lets the next through iff the seed module is guarded |
| Connection.FirstBootExits | server/src/db/seed.ts:89-98 | as written, a first boot on an empty database runs the seed twice, ends the process, and the second request is not served |
| Connection.FirstBootServes | server/src/db/connection.ts:54-57 | corrected: with a guarded seed module, a first boot runs the seed once, the process stays up, and the second request is served after the first |
| LanguageContext.Translate | src/contexts/LanguageContext.tsx:115-117 | the entry of the current language when the key names one that is non-empty, the key itself otherwise |
| LanguageContext.UnknownKeyEverywhere | src/contexts/LanguageContext.tsx:15-117 | a string that names no key reads as itself in every language |
| LanguageContext.DirOf | src/contexts/LanguageContext.tsx:102-111 | the direction is `rtl` exactly for Arabic, `ltr` otherwise |
| LanguageContext.SavedLanguage | src/contexts/LanguageContext.tsx:98-99 | a saved value is applied iff it is one of `en`, `fr`, `ar`, and then as that language |
| LanguageContext.SavedRoundTrip | src/contexts/LanguageContext.tsx:98-109 | the code `setLanguage` saves reads back as the same language |
| LanguageContext.LanguageState.constructor | src/contexts/LanguageContext.tsx:94 | the provider starts in English |
| LanguageContext.LanguageState.T | src/contexts/LanguageContext.tsx:115-117 | `t` is the lookup in the current language |
| LanguageContext.LanguageState.Mount | src/contexts/LanguageContext.tsx:96-105 | a valid saved language is applied together with the document's direction and language; anything else changes nothing |
| LanguageContext.LanguageState.SetLanguage | src/contexts/LanguageContext.tsx:107-113 | the language, the stored value, the direction and the document language all follow the chosen language |
| LanguageContext.Reload | src/contexts/LanguageContext.tsx:94-113 | a language chosen with `setLanguage` survives a reload, in step with the document |
| ProductForm.Set | src/pages/admin/EditProduct.tsx:210-214 | `{ ...e, [field]: v }` changes input `field` to `v` and keeps the other five inputs |
| ProductForm.PartsDetermine | src/pages/admin/AddProduct.tsx:13-20 | a row is determined by its six inputs |
| ProductForm.BlankIsEmpty | src/pages/admin/AddProduct.tsx:64 | the row that `add` appends has all six inputs empty |
| ProductForm.Appended | src/pages/admin/EditProduct.tsx:195-204 | `add` keeps every row in place and appends exactly one blank row |
| ProductForm.RemovedAt | src/pages/admin/EditProduct.tsx:206-208 | `remove(i)` drops row `i` only and keeps the rest in order; an index outside the list removes nothing |
| ProductForm.RemoveAppended | src/pages/admin/EditProduct.tsx:195-208 | removing the row just added gives the list back |
| ProductForm.RemovedAtMultiset | src/pages/admin/EditProduct.tsx:206-208 | removal drops one occurrence of the removed row and nothing else |
| ProductForm.UpdatedAt | src/pages/admin/EditProduct.tsx:232-236 | `update(i, f, v)` sets input `f` of row `i` to `v`; the other inputs of that row and all other rows are unchanged, the length too |
| ProductForm.UpdateSameValue | src/pages/admin/EditProduct.tsx:232-236 | writing an input's own value back changes nothing |
| AddProduct.DigitRun | src/pages/admin/AddProduct.tsx:111 | the digits `parseInt` reads are the longest prefix of digits |
| AddProduct.ParsedIds | src/pages/admin/AddProduct.tsx:111 | parsing the pieces never yields more ids than pieces |
| AddProduct.ParsedIdsMembers | src/pages/admin/AddProduct.tsx:111 | an id is submitted iff some piece, trimmed, parses to it (pieces that are NaN drop out) |
| AddProduct.NoCertIds | src/pages/admin/AddProduct.tsx:111 | the empty certifications field submits no id |
| AddProduct.Decimal | src/pages/admin/AddProduct.tsx:111 | the decimal text of a number is a non-empty run of digits |
| AddProduct.DecimalValue | src/pages/admin/AddProduct.tsx:111 | the decimal text reads back as the number |
| AddProduct.DigitsRun | src/pages/admin/AddProduct.tsx:111 | a text made of digits is read whole |
| AddProduct.ParseDigits | src/pages/admin/AddProduct.tsx:111 | `parseInt` of a run of decimal digits is the value they spell |
| AddProduct.ParseDecimal | src/pages/admin/AddProduct.tsx:111 | `parseInt(trim(String(n)))` is `n` |
| AddProduct.Decimals | src/pages/admin/AddProduct.tsx:111 | each id becomes its decimal text, in order |
| AddProduct.ParsedDecimals | src/pages/admin/AddProduct.tsx:111 | the decimal texts of ids parse back to the same ids |
| AddProduct.CertIdsRoundTrip | src/pages/admin/AddProduct.tsx:111 | a comma-separated list of ids typed into the field submits exactly those ids, in order |
| AddProduct.SubmittedReadBack | src/pages/admin/AddProduct.tsx:94-114 | after the server creates the submitted product it holds, in form order, exactly the rows with an English label and value, links to the parsed ids, and the flags, slug and title as typed |
| AddProduct.CreatedRow | src/pages/admin/AddProduct.tsx:114 | the product read back after the create is the row the insert wrote |
| AddProduct.AfterCreate | src/pages/admin/AddProduct.tsx:114-130 | success leads to the dashboard; a failure shows the server's message, or the fallback when there is none |
| AddProduct.UntouchedFormSendsNoRows | src/pages/admin/AddProduct.tsx:47-61 | an untouched form sends no row, no id, not featured and active |
| AddProduct.AddProductForm.constructor | src/pages/admin/AddProduct.tsx:37-61 | every field empty, not featured, active, one blank row in each list |
| AddProduct.AddProductForm.AddSpecification | src/pages/admin/AddProduct.tsx:63-65 | one blank row is appended to the specifications; nothing else changes |
| AddProduct.AddProductForm.RemoveSpecification | src/pages/admin/AddProduct.tsx:67-69 | row `index` leaves the specifications; nothing else changes |
| AddProduct.AddProductForm.UpdateSpecification | src/pages/admin/AddProduct.tsx:71-75 | one input of one specification row changes; nothing else does |
| AddProduct.AddProductForm.AddPackaging | src/pages/admin/AddProduct.tsx:77-79 | one blank row is appended to the packaging; nothing else changes |
| AddProduct.AddProductForm.RemovePackaging | src/pages/admin/AddProduct.tsx:81-83 | row `index` leaves the packaging; nothing else changes |
| AddProduct.AddProductForm.UpdatePackaging | src/pages/admin/AddProduct.tsx:85-89 | one input of one packaging row changes; nothing else does |
| EditProduct.TextOrEmpty | src/pages/admin/EditProduct.tsx:79-81 | a NULL text column shows as the empty string, any other as itself |
| EditProduct.LoadedFeatured | src/pages/admin/EditProduct.tsx:85 | the featured box shows the stored flag |
| EditProduct.LoadedActiveAsWritten | src/pages/admin/EditProduct.tsx:86 | as written, the form loads as inactive only for a literal `false` |
| EditProduct.InactiveLoadsAsActive | src/pages/admin/EditProduct.tsx:86 | a stored inactive product, sent as `0`, loads as active |
| EditProduct.LoadedActive | src/pages/admin/EditProduct.tsx:86 | corrected: inactive exactly for `false` or `0` |
| EditProduct.LoadedActiveRoundTrip | src/pages/admin/EditProduct.tsx:86 | corrected: the loaded flag is the stored one, as a number or a boolean; an absent flag loads as active |
| EditProduct.LoadedDetails | src/pages/admin/EditProduct.tsx:74-87 | as written, the form takes the slug, titles, descriptions and featured flag of the row, the categories with NULL as `''`, and the active box always ticked |
| EditProduct.LoadedDetailsIntended | src/pages/admin/EditProduct.tsx:74-87 | corrected: the same form, with the active box showing the stored flag |
| EditProduct.AfterFetch | src/pages/admin/EditProduct.tsx:74-102 | the fields are replaced; images, specifications and packaging only when the loaded list is non-empty |
| EditProduct.AfterFetchIntended | src/pages/admin/EditProduct.tsx:74-102 | corrected: the load differs from the as-written one only in the fields, which carry the stored active flag |
| EditProduct.StaleImagesAfterEmptyLoad | src/pages/admin/EditProduct.tsx:90-92 | a load with no images keeps the images shown before |
| EditProduct.AfterLoad | src/pages/admin/EditProduct.tsx:69-113 | a failed load keeps the state and goes back to the dashboard |
| EditProduct.UpdatePayload | src/pages/admin/EditProduct.tsx:128-132 | the update body has the form's fields, both flags, the specifications and packaging, and no certifications |
| EditProduct.SaveDropsCertifications | src/pages/admin/EditProduct.tsx:128-132 | saving the form removes every certification link of the product |
| EditProduct.SaveUnedited | src/pages/admin/EditProduct.tsx:69-132 | as written, load, change nothing, save: the rows, slug and featured flag are what they were, the links are gone, and the product is saved as active, so an inactive product is reactivated |
| EditProduct.SaveUneditedIntended | src/pages/admin/EditProduct.tsx:69-132 | corrected: the same round trip keeps both flags as stored |
| EditProduct.SavedRows | src/pages/admin/EditProduct.tsx:95-101 | the rows loaded and saved again are the rows stored |
| EditProduct.UploadFlag | src/pages/admin/EditProduct.tsx:153 | `is_primary` is `'true'` iff the page shows no image |
| EditProduct.UploadPrimaryRule | src/pages/admin/EditProduct.tsx:149-156 | after the upload the product has one image, primary iff the page showed none, so an upload onto shown images leaves no primary image |
| AddPage.KeyText | src/app/admin/products/add/page.tsx:119-138 | a form field travels under its own name |
| AddPage.BoolText | src/app/admin/products/add/page.tsx:120 | a flag travels as `"true"` exactly when it is set |
| AddPage.FieldEntries | src/app/admin/products/add/page.tsx:119-121 | the twelve form fields are appended |
| AddPage.BuildBody | src/app/admin/products/add/page.tsx:116-138 | the loops fill the buffer with the fields, the three lists and the images, in that order |
| AddPage.StepSound | src/app/admin/products/add/page.tsx:133-138 | one image adds its file, and the mark only when it is the primary |
| AddPage.ImageFiles | src/app/admin/products/add/page.tsx:133-134 | every image is appended, in order |
| AddPage.ImageMarks | src/app/admin/products/add/page.tsx:135-137 | the primary index is appended once when an image has it, never otherwise |
| AddPage.LookupAt | src/app/admin/products/add/page.tsx:116 | `get` returns the value of the first entry with the key |
| AddPage.BodyLayout | src/app/admin/products/add/page.tsx:116-138 | the body holds the fields, then the three lists, then the images and the mark |
| AddPage.BodyReadBack | src/app/admin/products/add/page.tsx:116-138 | the body gives back each field as its text, the rows with an English label, the selected ids, every image in order and the mark once when an image has the primary index |
| AddPage.LookupFields | src/app/admin/products/add/page.tsx:119-130 | in a body that starts with the fields and lists, each key reads back its own entry |
| AddPage.Toggle | src/app/admin/products/add/page.tsx:527-533 | checking appends the id; unchecking removes every occurrence of it and keeps the other ids, as often as they were selected |
| AddPage.ToggleShows | src/app/admin/products/add/page.tsx:526-533 | a box shows the state it was last set to, and the other boxes keep theirs |
| AddPage.ToggleBack | src/app/admin/products/add/page.tsx:527-533 | checking an unselected box and unchecking it again gives the selection back |
| AddPage.OnMount | src/app/admin/products/add/page.tsx:42-64 | without a token the page goes to login and sends no request; with one it sends the bearer header and lists the body of an ok response, and nothing otherwise |
| AddPage.NoTokenNoFetch | src/app/admin/products/add/page.tsx:43-47 | without a token what the server would answer makes no difference |
| AddPage.MountLists | src/app/admin/products/add/page.tsx:51-64 | sent to the certification route, the page's request lists every certification in name order iff the token verifies, and none otherwise |
| Dashboard.FindPrimary | src/pages/admin/Dashboard.tsx:217 | `find` yields the first primary image, and none iff no image is primary |
| Dashboard.ShownPath | src/pages/admin/Dashboard.tsx:215-225 | the thumbnail is the first primary image's URL when non-empty, else the first image's; the placeholder iff there is no image |
| Dashboard.ShownFirst | src/pages/admin/Dashboard.tsx:217 | when the first image is primary or none is, the first image shows |
| Dashboard.ListingThumbnail | src/pages/admin/Dashboard.tsx:215-225 | a listed product shows the first image in the server's order: its primary image if it has one, else the lowest display order |
| Dashboard.ThumbnailSrcAsWritten | src/pages/admin/Dashboard.tsx:217 | as written, the development origin goes in front of the chosen URL |
| Dashboard.ThumbnailDoubleOrigin | src/pages/admin/Dashboard.tsx:217 | with the server's absolute URLs the thumbnail's address carries a second origin, so it differs from the served URL |
| Dashboard.ThumbnailSrc | src/pages/admin/Dashboard.tsx:217 | corrected: the origin goes only in front of a path |
| Dashboard.ThumbnailServedUrl | src/pages/admin/Dashboard.tsx:217 | corrected: the listed thumbnail is the URL the server sent |
| Dashboard.NewCount | src/pages/admin/Dashboard.tsx:180 | the count of new inquiries is at most the number of inquiries |
| Dashboard.NewCountIsNewList | src/pages/admin/Dashboard.tsx:180 | the count is the length of the admin list filtered by status `new` |
| Dashboard.SubmittedCounts | src/pages/admin/Dashboard.tsx:180 | each inquiry the public form stores adds one to the count |
| Dashboard.StatusChangeCounts | src/pages/admin/Dashboard.tsx:180 | moving an inquiry away from `new` takes one off the count |
| Dashboard.UploadShown | src/pages/admin/Dashboard.tsx:76-92 | after an upload the product has exactly one image, primary, which the refreshed list shows; other products keep theirs |
| Dashboard.Logout | src/pages/admin/Dashboard.tsx:71-74 | the token goes, every other stored key stays, and the login page is next |
| Dashboard.AuthHeader | src/lib/api.ts:15-18 | a bearer header is sent iff a non-empty token is stored |
| Dashboard.LogoutDropsCredentials | src/pages/admin/Dashboard.tsx:71-74 | after logout no request carries a token; logging out twice is logging out once |
| ProductsPage.CategoriesOf | src/pages/Products.tsx:39-41 | the category of each product, in list order |
| ProductsPage.CollectCategories | src/pages/Products.tsx:39-41 | the loop yields `"all"` and then each category once, in first-seen order |
| ProductsPage.ButtonsSound | src/pages/Products.tsx:39-41 | the buttons are `"all"` and then every category of the list exactly once |
| ProductsPage.Visible | src/pages/Products.tsx:57-59 | `"all"` shows every product; another category shows exactly the products of that category |
| ProductsPage.VisibleInOrder | src/pages/Products.tsx:57-59 | a category shows each of its products as often as the list holds it, in the list's order |
| ProductsPage.CatalogPage.constructor | src/pages/Products.tsx:22-24 | the page starts with `"all"` chosen, no product, and `["all"]` as buttons |
| ProductsPage.CatalogPage.Loaded | src/pages/Products.tsx:31-45 | a response replaces the products and rebuilds the buttons; a failed fetch changes neither |
| ProductsPage.CatalogPage.Select | src/pages/Products.tsx:57 | a click changes the chosen category only |
| ProductDetailPage.ChosenImage | src/pages/ProductDetail.tsx:96 | the first image with a non-empty URL, or the placeholder when there is none |
| ProductDetailPage.ImageUrl | src/pages/ProductDetail.tsx:97 | an `http` URL is kept; anything else gets the development origin in front |
| ProductDetailPage.FieldLocale | src/pages/ProductDetail.tsx:100 | an empty language means English; otherwise the language's own column |
| ProductDetailPage.Shown | src/pages/ProductDetail.tsx:100-105 | the column of the current language, or `undefined` for a language without columns |
| ProductDetailPage.ShownOrNull | src/pages/ProductDetail.tsx:100-105 | the same for a nullable column, with NULL shown as `null` |
| ProductDetailPage.ShownLines | src/pages/ProductDetail.tsx:100-105 | each row shows its label and value in the current language, in order |
| ProductDetailPage.Render | src/pages/ProductDetail.tsx:63-94 | no slug keeps the spinner; a failed fetch or an empty body redirects to `/products`; otherwise the product's view |
| ProductDetailPage.UnknownSlugRedirects | src/pages/ProductDetail.tsx:71-73 | a slug of no active product redirects to the list |
| ProductDetailPage.ServerImageShown | src/pages/ProductDetail.tsx:96-97 | with the server's `http` base the first returned image shows at its served URL |
| ProductDetailPage.LocalizedFields | src/pages/ProductDetail.tsx:100-105 | title, description and rows show the columns of the chosen language; an empty language shows English |
| StaticProducts.Find | src/data/products.ts:174-176 | the first product with the id, whose id is the argument; none iff no product has it |
| StaticProducts.DistinctIds | src/data/products.ts:24-172 | the ids of the static table are pairwise distinct |
| StaticProducts.LookupFindsEach | src/data/products.ts:174-176 | each product of the table is found by its own id |
| StaticProducts.ListsNonEmpty | src/data/products.ts:24-172 | every static product has specifications and packaging |
| AdminProducts.Replaced | server/src/routes/admin/products.ts:186-200 | the update rewrites the product it names and keeps every other row and the order |
| AdminProducts.RowsOf | server/src/routes/admin/products.ts:17-37 | one product row per listed item, in list order |
| AdminProducts.ProductStore.Commit | server/src/routes/admin/products.ts:163 | a commit publishes the state built inside the transaction, all of it |
| Schema.Stamp | server/src/routes/admin/products.ts:127-137 | entry `i` of a submitted list is stored with order index `i`, one row per entry |
| Schema.Lines | server/src/routes/admin/products.ts:70-81 | the label and value columns of the rows read, one per row |
| Schema.StampLines | server/src/routes/admin/products.ts:127-151 | the stored rows carry the submitted entries unchanged |
| Schema.StampedInOrder | server/src/routes/admin/products.ts:70-81 | rows stamped with their positions come back from `ORDER BY` in stored order |
| Schema.ReadBackStamped | server/src/routes/admin/products.ts:70-151 | a list stored with its indices and read back by index is the list itself |
| Schema.FindById | server/src/routes/admin/products.ts:48-51 | `WHERE id = ?` finds a product with that id, and none iff no product has it |
| Schema.FirstPrimary | server/src/routes/products.ts:49-51 | `is_primary = 1 LIMIT 1` yields a primary image of the product, and none iff it has none |
| Schema.PrimaryImageUrl | server/src/routes/products.ts:48-54 | the listed `image` is base URL + path of a primary image, or null iff the product has no primary image |
| Schema.Prefixed | server/src/routes/products.ts:96-99 | one image view per stored image, in order, with the same id, flag and display order and the base URL before its path |
| Schema.AdminPrefixed | server/src/routes/admin/products.ts:59-67 | the admin views are the public ones without a display order, which that query does not select |
| Schema.PrefixedMembers | server/src/routes/products.ts:89-99 | reordering the stored images changes which position a view is in, not which views there are |
| Schema.AdminPrefixedMembers | server/src/routes/admin/products.ts:59-67 | the same for the admin views |
| Schema.Joined | server/src/routes/products.ts:122-127 | the inner join yields exactly the certifications that some link names |
| Base.Field.OrNull | server/src/routes/inquiries.ts:19 | `x || null` keeps a non-empty string and turns everything else into NULL |
| Base.LocaleOf | src/contexts/LanguageContext.tsx:98-99 | only the three lower-case codes name a language, as `includes` and `===` compare them |
| Base.AsciiLower | server/src/routes/products.ts:14-16 | folding keeps the length and lowers each ASCII capital, leaving every other character |
| Base.ColumnLocale | server/src/routes/products.ts:14-16 | a code names a column iff, with ASCII case folded, it is that locale's suffix |
| Base.ColumnLocaleCases | server/src/routes/products.ts:14-16 | `EN`, `Fr` and `aR` name their columns, while the exact comparison refuses `EN` |
| Base.LocaleCodeRoundTrip | src/contexts/LanguageContext.tsx:98-109 | a language's code names that language |
| Base.Filter | src/pages/Products.tsx:59 | `filter` keeps exactly the elements that pass, never more than there were |
| Base.FilterAppend | src/pages/Products.tsx:59 | filtering a concatenation filters each part |
| Base.FilterMultiset | src/pages/Products.tsx:59 | a kept element is kept as often as it occurs; nothing is added |
| Base.FilterPairs | src/pages/Products.tsx:59 | filtering keeps the relative order |
| Base.FilterMap | src/pages/admin/AddProduct.tsx:111 | `.map(f).filter(...)` yields at most one value per element |
| Base.FilterMapMembers | src/pages/admin/AddProduct.tsx:111 | a value is kept iff some element maps to it |
| Base.Count | src/pages/admin/Dashboard.tsx:180 | `filter(...).length` is at most the length of the list |
| Base.Without | src/app/admin/products/add/page.tsx:531 | `filter(x => x !== id)` removes every occurrence of `id` and keeps every other element as often as it was there |
| Base.WithoutAbsent | src/app/admin/products/add/page.tsx:531 | removing an absent id changes nothing |
| Base.WithoutSnoc | src/app/admin/products/add/page.tsx:529-531 | an occurrence appended at the end goes with the others |
| Base.Split | src/pages/admin/AddProduct.tsx:111 | `split` yields at least one piece |
| Base.SplitPiecesFree | src/pages/admin/AddProduct.tsx:111 | no piece holds the separator |
| Base.JoinSplit | src/pages/admin/AddProduct.tsx:111 | joining the pieces with the separator gives the text back |
| Base.SplitJoin | src/pages/admin/AddProduct.tsx:111 | pieces without the separator come back from splitting their join |
| Base.TrimStart | src/pages/admin/AddProduct.tsx:111 | no leading white space remains |
| Base.TrimEnd | src/pages/admin/AddProduct.tsx:111 | no trailing white space remains |
| Base.Trim | src/pages/admin/AddProduct.tsx:111 | `trim` leaves neither end white space and never lengthens the text |
| Base.TrimStable | src/pages/admin/AddProduct.tsx:111 | a trimmed text is its own trim |
| Base.TrimKeeps | src/pages/admin/AddProduct.tsx:111 | trimming only removes characters |
| Base.StrLeTotal | server/src/routes/products.ts:147 | any two texts are ordered one way or the other |
| Base.StrLeTrans | server/src/routes/products.ts:147 | the text order is transitive |
| Base.StrLeAntisym | server/src/routes/products.ts:147 | two texts ordered both ways are equal |
| Sorting.SortBy | server/src/routes/products.ts:40 | `ORDER BY` returns a permutation of the rows: the same elements, as often, and the same length |
| Sorting.SortBySorted | server/src/routes/products.ts:40 | under a total preorder the result is sorted and a permutation of the input |
| Sorting.SortByMembers | server/src/routes/products.ts:40 | sorting keeps every element and adds none |

## Left out

- Network, HTTP routing, Express and Next.js middleware, and response serialisation. A route is a function or method from its inputs (body, query, header, stored state) to a `Reply`, a status with its body or error message.
- SQL text, the connection pool and the MySQL driver. Each query is modelled by what it reads or writes. On the write routes, the login and the admin certification list, a raised statement is an input (`failAt` or a flag), not a cause; the read routes listed below take no such input.
- Server-side text ordering under the database collation. `ORDER BY` on a text column is modelled as code-unit lexicographic order (`StrLe`). `ORDER BY` on equal keys is modelled as a stable sort, and the contracts state only "sorted" and "a permutation".
- The table definitions: `schema.sql` is not part of this model. The model assumes these constraints:
  - a unique slug;
  - child tables keyed by product with cascading delete;
  - certification names unique and not NULL;
  - a unique user e-mail;
  - a unique (page, section) key for page texts.

  The tables start empty.
- The link table's foreign key to `certifications` is not modelled. Deleting a certification leaves existing product links as they are.
- Auto-increment gaps after a rolled-back insert or an upsert are not modelled. Ids are taken from a counter that advances only on success.
- Oracles:
  - bcrypt hashing and comparison, and JWT signing and verification, are function parameters;
  - the notification mailer is a failure flag;
  - the clock is a timestamp parameter.
- The filesystem: uploaded files and removed image files are a set of paths, not bytes; multer's storage and naming are not modelled. The text of `schema.sql` is given to the `Database` constructor as a string.
- Environment variables: `BASE_URL`, `ADMIN_EMAIL`, `ADMIN_PASSWORD_HASH`, `ADMIN_PASSWORD` and `JWT_SECRET` are parameters or constants holding the source's fallback values.
- The translation strings of the language context are held behind the constructors of `Key`. The three tables therefore have the same keys by construction, and only the lookup and its fall-back are proved.
- The schema runner's statement list is fixed when the `Database` object is built.
- Static product descriptions are held behind `Blurb` values. Static images are asset paths.
- `parseInt` is modelled for decimal and `0x` inputs only after `trim`. Number precision limits and exponent syntax are not modelled, and integers are unbounded.
- ProductForm.UpdatedAt: requires an index inside the list. The forms call it only with the index of a row they show; an index outside the list adds an `undefined` hole in JavaScript, which the model does not represent.
- AddProduct.AddProductForm.UpdateSpecification: in the source, `updated[index][field] = value` writes into the row object that the previous state shares. The model gives the list a new row instead, so aliasing between the old and new state is not captured. AddProduct.AddProductForm.UpdatePackaging is the same.
- The generic field setters (`handleChange`, `handleInputChange`) are not modelled one by one. `Details` is a value with one field per input, and any setter is a record update.
- JSON encoding of lists in the FormData body is held abstractly: a `RowsJson` or `IdsJson` value holds the list it encodes.
- The add page's handling of the POST response (`alert` on failure) is not modelled. The Next.js route it posts to, `/api/admin/products`, defines only `GET`.
- Toasts, `confirm` dialogs, loading spinners, and the dashboard's `uploadingImage` and `loading` flags are not modelled.
- The dashboard's delete handler, and `fetchData`'s error and 401 flow, are not modelled; the server's delete is modelled in `AdminProducts`.
- The `Promise.all` ordering in the dashboard is not modelled.
- PublicProducts.List, PublicProducts.Detail, PublicProducts.CategoriesRoute, AdminProducts.AdminDetail, AdminProducts.ProductStore.AdminList, AdminInquiries.List, AdminInquiries.Get, NextProducts.List, NextAdminProducts.List and NextAdminCertifications.List take no failure input: a query that raises on these read routes is not modelled. In the source each such failure is caught and answered with 500 `Server error` and no change to the store (`server/src/routes/products.ts:57-59`, `132-134` and `151-153`; `server/src/routes/admin/products.ts:37-39` and `93-95`; `server/src/routes/admin/inquiries.ts:27-29` and `43-45`; `src/app/api/products/route.ts:51-53`; `src/app/api/admin/products/route.ts:52-54`; `src/app/api/admin/certifications/route.ts:35-37`).
- Connection.Database.InitDatabase: as written, the seed run started by importing `seed.ts` (`server/src/db/seed.ts:89-98`) runs beside the awaited one; how their statements interleave and the exit code (`0` or `1`) are not modelled. The oracle `importSettlesFirst` says whether that run ends the process before the awaited one returns, and every later call is treated as not run once the process has ended.
- Connection.Database.EnsureInitialized: calls are modelled one after another. In the source the flag is checked, then `initDatabase` is awaited, and only then is the flag raised (`server/src/db/connection.ts:73-82`), with no lock; two first requests that arrive together both find the flag down and both run the schema and seed. That interleaving is not modelled.
- PublicProducts.QueryLocale: a `lang` that names no column in any letter case is taken to fail the query, which answers 500. In the source some such values still form valid SQL (a trailing comment, an injected column list, see Findings) and answer 200; the model does not compute SQL text for them. PublicProducts.List and PublicProducts.CategoriesRoute inherit this.
- NextProducts.NextLocale: the same for `src/app/api/products/route.ts:12-26`; NextProducts.List inherits it.
- AdminProducts.RunUpdate: `UpdateFails` treats a missing `featured` or `active` as a failing statement. The driver binds `undefined` as NULL (`server/src/routes/admin/products.ts:191-198`), so this assumes both flag columns are NOT NULL; `schema.sql` is not part of this model.
- AdminProducts.RunCreate: `ProductInput` makes the slug, the titles and the descriptions required text. The source binds a missing one as NULL (`server/src/routes/admin/products.ts:106-121` and `182-198`); whether the table takes NULL there depends on `schema.sql`, and the model does not represent a NULL body field. AdminProducts.RunUpdate is the same.
- PublicProducts.FindActiveBySlug, AdminProducts.SlugUsed, PublicProducts.BuildFilter, PublicProducts.Distinct and Auth.FindByEmail compare texts with exact `==`. Under MySQL's default case-insensitive collation, `WHERE p.slug = ?` (`server/src/routes/products.ts:77`), `p.category_en = ?` (`server/src/routes/products.ts:24`), `DISTINCT` (`server/src/routes/products.ts:144`) and `WHERE email = ?` (`server/src/routes/auth.ts:17`) also match texts that differ only in letter case. Collation is modelled nowhere, not only in `ORDER BY`.
- Schema.ImageView: `displayOrder` is `None` on the admin detail and upload paths, whose queries and replies do not carry the column.
- The image list rendered by the edit form (`src/pages/admin/EditProduct.tsx:303`) is not modelled beyond the upload flag it feeds.
- The response interceptor of the API client (`src/lib/api.ts`, the 401 redirect) is not modelled; only the request interceptor's bearer header is (`Dashboard.AuthHeader`).
- The Next.js login route's 500 answer to a body that is not JSON is not modelled; the body is taken as already parsed.
- The Products page fetches through `react-i18next` (`src/lib/i18n.ts`); that library is not part of this model. The page is given the fetched list.

## Findings

| source | as written | input that shows it | evidently intended | confidence | as-written member | corrected member |
|---|---|---|---|---|---|---|
| src/pages/admin/EditProduct.tsx:86 | `active: product.active !== false` on a column MySQL sends as `0` or `1` | a stored inactive product (`active = 0`) loads into the form with the active box ticked | inactive for `0` as well as `false` | not executed | EditProduct.SaveUnedited | EditProduct.SaveUneditedIntended |
| src/pages/admin/Dashboard.tsx:217 | `` `http://localhost:5000${...image_url}` `` on URLs the server already prefixes with `BASE_URL` | `BASE_URL = "https://1000coupoleexport.com"` and a product with one image: the thumbnail address is `http://localhost:5000https://1000coupoleexport.com/...` | prefix only a path, as the product page does | not executed | Dashboard.ThumbnailDoubleOrigin | Dashboard.ThumbnailSrc |
| server/src/routes/products.ts:14-16 | `p.title_${lang}`, `p.category_${lang}` and `p.description_${lang}` paste the query parameter into the statement unescaped | `lang = "en as title, (SELECT password_hash FROM users LIMIT 1) as h, p.title_en"`: the select list stays valid SQL and returns the admin password hash to an anonymous caller | accept only a code that names a language and build the column names from it | not executed | PublicProducts.LangInjectsSql | PublicProducts.SelectList |
| server/src/db/connection.ts:56 | `await import('./seed')` loads a module whose last statement runs `seedDatabase()` and then calls `process.exit` (`server/src/db/seed.ts:89-98`) | the first request in development against an empty database: the seed runs twice and the server process exits once the imported run settles, so later requests are not served | load `seedDatabase` without running it on import | not executed | Connection.FirstBootExits | Connection.FirstBootServes |

The edit page and the connection are modelled as written, with the corrected versions beside them (`EditProduct.LoadedDetailsIntended`, `EditProduct.LoadedActiveRoundTrip`, a `Database` built with `seedGuarded`); `EditProduct.InactiveLoadsAsActive` shows the single flag on which the round trip breaks. The public routes answer 500 for every code that names no column, which is the corrected behaviour; `PublicProducts.SelectList` is the statement text that goes with it.

The edit form also keeps the images it shows when a reload returns none (`EditProduct.StaleImagesAfterEmptyLoad`, `src/pages/admin/EditProduct.tsx:90-92`). The next upload from that form is then sent with `is_primary = 'false'`, and the product is left with no primary image.
