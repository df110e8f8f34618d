# Itinerary backend: creation, lookup and deletion of tour itineraries

This project models the core of a FastAPI/SQLAlchemy backend for tour
itineraries. An itinerary has a title, a URL slug derived from the title, days
(each with at most one hotel detail), at most one map, tags, and images. Images
live in one universal table and are attached to itineraries, days, hotel
details and maps through a polymorphic link table.

The model covers:

- `slugify` and `generate_id` from `models.py`. They are pure functions over
  strings (`Slugs`, `Ids`).
- The seven tables, modelled as maps from primary key to row (`Records`). This
  includes the view-only image relations read through the link table, the
  integrity rules the handlers maintain, and the eagerly loaded itinerary graph.
- The session's unit of work (`Session`). Pending rows are flushed as one
  batch, and a primary key that is already taken fails the whole flush.
- The mapped `Itinerary` object and its `before_insert` / `before_update`
  listeners, which set the slug in place (`Entities`).
- What `create_itinerary` adds to the database (`Assembly`). `Assemble` is the
  specification of the committed result. Lemmas state what a creation adds,
  that it keeps every old row, that it keeps the integrity rules, and what
  reading the new itinerary back gives.
- The delete cascades of `models.py` (`Cascade`).
- How the handlers' `except` chains turn an exception into an HTTP error
  (`Errors`).
- The handlers themselves, as methods of a `Store` class whose seven map
  fields are the committed tables (`ItineraryStore`):
  - `Create` queues the rows step by step, in the order the handler adds them,
    and commits once.
  - `GetItinerary`, `ListItineraries` and `DeleteItinerary` are proved against
    `Graph`, `Consistent` and `DeleteItineraryRows`.

Parameters stand in for the outside world:

- The k-th uuid4 drawn during a creation is `uuid(k)`.
- `datetime.now()` is the parameter `now`.

## Model

| member | source | states |
|---|---|---|
| Slugs.RemoveDisallowed | models.py:15 | only word characters, whitespace and hyphens survive; a string made only of them is unchanged |
| Slugs.RemoveDisallowedAppend | models.py:15 | the substitution distributes over concatenation, so the kept characters stay in their order |
| Slugs.RemoveDisallowedOne | models.py:15 | a single character is kept exactly when it is a word character, whitespace or a hyphen, and otherwise dropped |
| Slugs.LeadingSpaces | models.py:15 | the count covers exactly the whitespace run that opens the string |
| Slugs.TrailingSpaces | models.py:15 | the count covers exactly the whitespace run that closes the string |
| Slugs.Strip | models.py:15 | the result is the slice of the input after its leading whitespace, and all that follows it is whitespace; it neither starts nor ends with whitespace; a string without whitespace is unchanged; only word characters and separators in gives only those out |
| Slugs.Lower | models.py:15 | same length, each character lower-cased |
| Slugs.CollapseSeparators | models.py:16 | empty iff the input is empty; starts with a hyphen iff the input starts with a separator; never two hyphens in a row |
| Slugs.CollapseKeepsChars | models.py:16 | every character of the result is a hyphen or a non-separator character of the input |
| Slugs.CollapseKeepsNonSeparators | models.py:16 | the non-separator characters of the result are exactly those of the input, in the same order |
| Slugs.CollapseHyphenPerRun | models.py:16 | the result holds exactly one hyphen per maximal run of hyphens and whitespace in the input, counted by an independent left-to-right scan |
| Slugs.CollapseAppend | models.py:16 | a string that ends in a non-separator is collapsed independently of what follows it: collapsing `a + b` gives the collapsed `a` followed by the collapsed `b` |
| Slugs.RunThenRest | models.py:16 | a non-empty run of hyphens and whitespace followed by a non-separator (or the end) becomes exactly one hyphen in its place, followed by the collapsed rest |
| Slugs.CollapseNonSeparator | models.py:16 | a single non-separator character is kept as it is; with the two lemmas above this fixes the result on every input |
| Slugs.CollapseSlugChars | models.py:16 | collapsing a string of slug characters and whitespace gives slug characters only |
| Slugs.LowerFixesSlug | models.py:15 | lower-casing leaves a slug unchanged |
| Slugs.Slugify | models.py:13-17 | the result is a slug: only lower-case letters, digits, `_` and `-`, never two hyphens in a row |
| Slugs.SlugIsFixpoint | models.py:13-17 | every slug passes through `slugify` unchanged |
| Slugs.CollapseFixesSlug | models.py:16 | collapsing separators leaves a slug unchanged |
| Slugs.SlugifyIdempotent | models.py:13-17 | `slugify(slugify(v)) == slugify(v)` for every input |
| Ids.RemoveHyphens | models.py:9 | the result has no hyphen and is no longer than the input; a hyphen-free input is unchanged |
| Ids.IdToken | models.py:9 | the token is at most eight characters and has no hyphen |
| Ids.GenerateId | models.py:8-10 | the id starts with the prefix and a hyphen, is at most nine characters longer than the prefix, and has no hyphen after the prefix's |
| Ids.ParseId | models.py:8-10 | a parse result reassembles into the id it came from |
| Ids.ParseGeneratedId | models.py:8-10 | splitting a generated id at its last hyphen gives back the prefix and the token, for every prefix |
| Ids.DistinctPrefixesGiveDistinctIds | models.py:28 | ids generated with different prefixes never collide, whatever uuids are drawn |
| Ids.RemoveHyphensAppend | models.py:9 | removing hyphens distributes over concatenation |
| Ids.GeneratedIdShape | models.py:8-10 | for a real uuid4 text the id is the prefix, a hyphen and exactly eight upper-case hex digits (the uuid's first group) |
| Records.ImagesFor | models.py:68-77 | an owner's images are a sub-map of the image table |
| Records.ImagesForMeans | models.py:68-77 | an image belongs to an owner's relation iff it exists and a link of that owner kind and id names it |
| Records.Graph | itinerary/itinerary.py:67-82 | the loaded graph is the itinerary's row, and its days, map and tags are exactly the rows whose foreign key names it |
| Records.GraphOneToOne | models.py:79 | in a consistent store a loaded itinerary has at most one map, and each day at most one hotel detail |
| Session.InsertRows | itinerary/itinerary.py:201 | inserting rows succeeds iff their keys are distinct and none is taken; the new table is the old one plus exactly those rows, and old rows are untouched |
| Session.InsertOne | itinerary/itinerary.py:161 | inserting one row fails iff its key is taken, and otherwise adds exactly that entry |
| Session.InsertRowsAppend | itinerary/itinerary.py:162 | inserting `a + b` is inserting `a` and then `b` |
| Session.FlushThen | itinerary/itinerary.py:162 | flushing two batches one after the other gives the same result as flushing them together |
| Session.FlushPrefixFails | itinerary/itinerary.py:162 | a batch that fails to flush still fails when more rows follow it |
| Session.FlushSucceeds | itinerary/itinerary.py:201 | a flush succeeds iff every table accepts its rows |
| Session.FlushParts | itinerary/itinerary.py:201 | after a successful flush, each table is its old content with that table's pending rows inserted |
| Session.FlushOneItinerary | itinerary/itinerary.py:161 | a batch with one itinerary row fails when its id is taken, and otherwise adds exactly that row |
| Session.ThenLinksResolve | itinerary/itinerary.py:165 | if every link in each of two batches names an image in that batch, the same holds for the two batches together |
| Session.ThenAssociative | itinerary/itinerary.py:161-199 | queueing rows is associative |
| Session.ThenNoRows | itinerary/itinerary.py:161-199 | an empty batch is neutral |
| Entities.SlugOnInsert | models.py:86-89 | with a title and no slug (or an empty one) the slug becomes `slugify(title)`; otherwise it is left as it was |
| Entities.SlugOnUpdate | models.py:92-95 | with a title the slug becomes `slugify(title)`; without one it is left as it was |
| Entities.PresetSlugSurvivesInsertOnly | models.py:86-95 | a preset slug that differs from `slugify(title)` is kept on insert but overwritten on update |
| Entities.HookedSlugsAreSlugs | models.py:86-95 | both listeners write a well-formed slug when the title is set, and the update listener is idempotent |
| Entities.UpdateAfterInsertKeepsSlug | models.py:86-95 | on a new itinerary the update listener writes back exactly the slug the insert listener set, so running it after the insert changes nothing |
| Entities.ItineraryRow | itinerary/itinerary.py:149-160 | the row has the request's title and the given slug; the discount is the request's, or 0 when it is absent |
| Entities.ItineraryEntity.FromRequest | itinerary/itinerary.py:149-160 | each field is copied from the request, the discount is `request.discount or 0`, and the slug is unset |
| Entities.ItineraryEntity.BeforeInsert | models.py:86-89 | the slug field becomes `SlugOnInsert(title, old slug)`; nothing else changes |
| Entities.ItineraryEntity.BeforeUpdate | models.py:92-95 | the slug field becomes `SlugOnUpdate(title, old slug)`; nothing else changes |
| Entities.ItineraryEntity.Row | models.py:52-82 | the inserted row carries the object's slug, title and discount |
| Assembly.DrawImages | models.py:28 | one image-and-link id pair is drawn per image; every image id carries the `IMG` prefix and every link id the `IMGLNK` prefix, each followed by a hyphen |
| Assembly.DrawDay | models.py:133 | a day gets ids for itself, its images and, when it has one, its hotel and that hotel's images |
| Assembly.DrawDays | models.py:133 | the plan has one fitting day plan per payload day |
| Assembly.PlanIds | models.py:8-10 | the ids drawn in creation order give one id for every row the request asks for |
| Assembly.ImageRows | itinerary/itinerary.py:165 | one image row and one link row per entry, in order; each link names its image with the given owner kind and id; nothing else is added |
| Assembly.ImageRowsStep | itinerary/itinerary.py:165 | the rows for the first `i+1` entries are the rows for the first `i`, followed by those for entry `i` |
| Assembly.HotelRows | itinerary/itinerary.py:179-187 | exactly one hotel row, with the entry's name and url, pointing at its day; its images and links are exactly those `add_images_with_links` adds for the hotel's images with kind "hotel_detail" and the hotel's id |
| Assembly.DayRows | itinerary/itinerary.py:169-187 | exactly one day row; a hotel row only if the day has a hotel detail, and then pointing at that day; the images and links are the day's images with "itinerary_day" links to the day, followed by the hotel's images with "hotel_detail" links to the hotel when there is one; every link names a queued image |
| Assembly.DayRowsPending | itinerary/itinerary.py:169-187 | a day's rows hold that day whole: its row, each image with its "itinerary_day" link, and its hotel detail with each hotel image and its "hotel_detail" link |
| Assembly.DaysRows | itinerary/itinerary.py:168-187 | one day row per payload day, in order, each pointing at the root; every link names a queued image |
| Assembly.DaysRowsPending | itinerary/itinerary.py:168-187 | the day loop's rows hold every payload day whole, with its images, its hotel detail and the hotel's images, each image with its link |
| Assembly.DaysRowsHotelsFromDays | itinerary/itinerary.py:179-183 | every hotel row of the day loop is the hotel detail of a payload day that has one |
| Assembly.HotelsThen | itinerary/itinerary.py:168-187 | queueing two batches whose hotels name their own days, one hotel per day, keeps both properties |
| Assembly.DayRowsHotels | itinerary/itinerary.py:179-187 | a day's hotel row names that day |
| Assembly.DaysRowsHotels | itinerary/itinerary.py:168-187 | every hotel row of the day loop names one of the loop's days, and with distinct day ids no two name the same day |
| Assembly.MapRows | itinerary/itinerary.py:190-194 | with no map image, nothing is queued; otherwise one map row pointing at the root, plus one image and a "map" link to it |
| Assembly.TagRows | itinerary/itinerary.py:197-199 | one tag row per payload tag, in order, each pointing at the root; nothing else |
| Assembly.RootRows | itinerary/itinerary.py:149-165 | the itinerary row, its images and their "itinerary" links |
| Assembly.CreateRows | itinerary/itinerary.py:147-199 | exactly one itinerary row (the root); a map row iff the request has a map image; every link names a queued image |
| Assembly.CreateRowsParts | itinerary/itinerary.py:147-199 | shows which part of the handler contributes each table's rows |
| Assembly.CreateRowsDays | itinerary/itinerary.py:168-187 | the day rows follow the payload days in order; every hotel row points at a new day, and no two at the same day |
| Assembly.CreateRowsDayDetail | itinerary/itinerary.py:168-187 | the creation batch holds every payload day whole (row, images with "itinerary_day" links, hotel detail with its images and "hotel_detail" links), and each of its hotel rows is some payload day's hotel detail |
| Assembly.CreateRowsDayHotel | itinerary/itinerary.py:179-183 | with distinct day ids, the batch's hotel rows that name day `i` are exactly day `i`'s hotel detail: one row if the payload day has a hotel, none otherwise |
| Assembly.CreateRowsTags | itinerary/itinerary.py:197-199 | one tag per payload tag, in order, each pointing at the root |
| Assembly.CreateRowsImages | itinerary/itinerary.py:164-194 | the request's images come first, with "itinerary" links to the root; every day image is queued with an "itinerary_day" link to its day and every hotel image with a "hotel_detail" link to its hotel; the map image is queued with a "map" link to the map |
| Assembly.CreateRowsMapKeys | itinerary/itinerary.py:190-194 | the queued map ids are the map plan's id when there is a map image and none otherwise |
| Assembly.Assemble | itinerary/itinerary.py:147-204 | an empty title fails (the slug stays unset against a NOT NULL column); a slug already in use fails (unique column) |
| Assembly.AssembleFlushes | itinerary/itinerary.py:147-204 | creation succeeds iff the title is set, its slug is unused and the handler's rows flush; the result is exactly that flush |
| Assembly.AssembleRoot | itinerary/itinerary.py:149-162 | a root id already in use fails; on success the itinerary table gains exactly the root with the slugified title |
| Assembly.AssembleSlugFindsRoot | itinerary/itinerary.py:80-81 | after a creation, the slugified title names the new root and no other itinerary |
| Assembly.AssembleKeepsRows | itinerary/itinerary.py:147-204 | creation changes and removes no committed row |
| Assembly.FlushKeepsRows | itinerary/itinerary.py:201 | a successful flush keeps every committed row unchanged |
| Assembly.AssembleBareSucceeds | itinerary/itinerary.py:147-204 | a titled request with nothing nested succeeds whenever its slug and root id are unused |
| Assembly.CreateRowsAreBatch | itinerary/itinerary.py:147-199 | the handler's rows have the shape of a creation batch for the root |
| Assembly.BatchKeepsParents | models.py:103-137 | after the flush every day, map and tag points at an existing itinerary |
| Assembly.BatchKeepsHotelDays | models.py:163 | after the flush every hotel's day exists |
| Assembly.BatchKeepsLinkImages | models.py:43 | after the flush every link names an existing image |
| Assembly.BatchKeepsSlugsUnique | models.py:58 | the unique slug column still holds |
| Assembly.BatchKeepsOneMap | models.py:79 | still at most one map per itinerary |
| Assembly.BatchKeepsOneHotel | models.py:152-154 | still at most one hotel detail per day |
| Assembly.AssembleKeepsConsistent | models.py:25-176 | a successful creation keeps a consistent store consistent |
| Assembly.NewDaysOnly | models.py:78 | the days pointing at an itinerary that was absent before the insert are exactly the inserted days |
| Assembly.BatchGraphDays | models.py:78 | the days of a new root, loaded back, are exactly the batch's days |
| Assembly.NewTagsOnly | models.py:80 | the tags pointing at a new root are exactly the inserted tags |
| Assembly.BatchGraphTags | models.py:80 | the tags of a new root, loaded back, are exactly the batch's tags |
| Assembly.NewMapsOnly | models.py:79 | the maps pointing at a new root are exactly the inserted maps |
| Assembly.BatchGraphMaps | models.py:79 | the map of a new root, loaded back, is the batch's map, if there is one |
| Assembly.BatchImageLinked | models.py:109-119 | a queued image with a queued link to an owner is among that owner's images after the flush |
| Assembly.AssembleGraphDays | itinerary/itinerary.py:168-177 | the new itinerary loads back with one day per payload day, each holding that day's row |
| Assembly.AssembleGraphDayImages | itinerary/itinerary.py:168-177 | each loaded day of the new itinerary holds every image of its payload day |
| Assembly.AssembleGraphDayHotel | itinerary/itinerary.py:168-187 | each loaded day has no hotel detail when its payload day has none, and otherwise exactly one, carrying the payload's name and url |
| Assembly.AssembleGraphHotelImages | itinerary/itinerary.py:179-187 | the loaded hotel detail of a day holds every image of the payload's hotel |
| Assembly.AssembleGraphTags | itinerary/itinerary.py:197-199 | the new itinerary loads back with exactly one tag per payload tag |
| Assembly.AssembleGraphMap | itinerary/itinerary.py:190-194 | the new itinerary loads back with a map iff the request gave a map image |
| Assembly.AssembleGraphMapImage | itinerary/itinerary.py:190-194 | the map's single image relation holds the request's map image |
| Assembly.AssembleGraphImages | itinerary/itinerary.py:149-165 | the new itinerary loads back as the built row, with every request image among its images |
| Cascade.DeleteItineraryRows | models.py:78-80 | the itinerary, its days, those days' hotels, its map and its tags are removed; every other row is kept unchanged; images and links are untouched |
| Cascade.DeleteDayRows | models.py:152-154 | the day and its hotel detail are removed, and nothing else |
| Cascade.DeleteImageRows | models.py:33-43 | the image and every link naming it are removed, and nothing else |
| Cascade.DeleteItineraryLeavesNoChildren | models.py:78-80 | after the cascade no row points at the deleted itinerary, and every hotel's day still exists |
| Cascade.DeleteItineraryKeepsConsistent | models.py:78-80 | the itinerary cascade keeps a consistent store consistent |
| Cascade.DeleteItineraryKeepsParents | models.py:78-80 | every surviving day, map and tag still points at a surviving itinerary |
| Cascade.DeleteItineraryKeepsHotelDays | models.py:152-154 | every surviving hotel detail still names a surviving day |
| Cascade.DeleteDayKeepsConsistent | models.py:152-154 | the day cascade keeps a consistent store consistent |
| Cascade.DeleteImageKeepsConsistent | models.py:33-43 | the image cascade keeps a consistent store consistent |
| Cascade.DeleteItineraryKeepsImageRelations | models.py:68-77 | the image relations are view-only, so deleting an itinerary changes no owner's images |
| Cascade.DeleteImageLeavesRelations | models.py:33 | deleting an image removes it from every owner's images, and nothing else |
| Cascade.DeleteItineraryKeepsHotels | models.py:152-154 | a day that survives the cascade keeps its hotel detail |
| Cascade.DeleteItineraryKeepsOtherDays | models.py:78 | other itineraries keep their loaded days |
| Cascade.DeleteItineraryKeepsOtherMaps | models.py:79 | other itineraries keep their loaded map |
| Cascade.DeleteItineraryKeepsOtherTags | models.py:80 | other itineraries keep their loaded tags |
| Cascade.DeleteItineraryKeepsOthers | models.py:78-80 | every other itinerary loads back exactly as before |
| Errors.Classify | itinerary/itinerary.py:41-61 | a database error gives 500 with a fixed detail; a validation error gives 422 where it is caught; every other exception, including the not-found one and an uncaught validation error, gives 500 with "An unexpected error occurred: " followed by the exception's text; the status is 422 iff the error is a validation error the handler catches, and otherwise 500 |
| Errors.ClassifyIntended | itinerary/itinerary.py:84-89 | the not-found exception gives 404 "Itinerary not found"; every other exception is classified as written |
| Errors.NotFoundBecomesServerError | itinerary/itinerary.py:84-113 | as written, a missing slug answers 500 with detail "An unexpected error occurred: 404: Itinerary not found", never 404 |
| Errors.NoHandlerAnswers404 | itinerary/itinerary.py:93-113 | as written, no exception yields a 404 |
| Errors.DatabaseDetailHidden | itinerary/itinerary.py:93-99 | the database error's message never reaches the client |
| Errors.UnexpectedMessageKept | itinerary/itinerary.py:107-113 | the catch-all puts the exception text into the detail, so different texts give different answers |
| Errors.DeleteValidationIsUnexpected | itinerary/itinerary.py:132-145 | the delete handler reports a validation error as an unexpected 500, while the get handler gives 422 |
| Errors.IntendedNotFoundIff | itinerary/itinerary.py:84-89 | under the corrected mapping the status is 404 iff the itinerary is missing |
| ItineraryStore.AddImagesWithLinks | itinerary/itinerary.py:165 | the loop queues exactly `ImageRows` behind the pending rows |
| ItineraryStore.QueueDay | itinerary/itinerary.py:169-187 | one pass of the day loop queues exactly `DayRows` |
| ItineraryStore.QueueDays | itinerary/itinerary.py:168-187 | the day loop queues exactly `DaysRows` |
| ItineraryStore.QueueMap | itinerary/itinerary.py:190-194 | queues exactly `MapRows` |
| ItineraryStore.QueueTags | itinerary/itinerary.py:197-199 | the tag loop queues exactly `TagRows` |
| ItineraryStore.QueueCreation | itinerary/itinerary.py:149-199 | everything the handler adds before its commit is exactly `CreateRows` |
| ItineraryStore.BuildCreation | itinerary/itinerary.py:147-201 | the object, its insert listener, the queued rows and the flush give exactly `Assemble` |
| ItineraryStore.Store.constructor | models.py:19-20 | an empty database, which is consistent |
| ItineraryStore.Store.Commit | itinerary/itinerary.py:201 | the committed tables become the flushed ones |
| ItineraryStore.Store.Create | itinerary/itinerary.py:147-204 | on success the store is `Assemble`'s tables and the answer is the root id; on failure an integrity error and the store is unchanged; a consistent store stays consistent |
| ItineraryStore.Store.FindBySlug | itinerary/itinerary.py:118 | finds an itinerary iff one carries the slug, and the one found does carry it |
| ItineraryStore.Store.GetItinerary | itinerary/itinerary.py:63-91 | returns a graph iff the slug is in use, and that graph is the loaded graph of an itinerary carrying the slug; otherwise the not-found error |
| ItineraryStore.QueryAll | itinerary/itinerary.py:20-33 | the query returns every itinerary id exactly once, and nothing else |
| ItineraryStore.Store.ListItineraries | itinerary/itinerary.py:17-39 | every itinerary's loaded graph appears exactly once, and nothing else; `total` is the number of items |
| ItineraryStore.Store.DeleteItinerary | itinerary/itinerary.py:115-130 | succeeds iff the slug is in use, and then the store is the cascade applied to that itinerary; otherwise not-found and no change; consistency is kept |
| ItineraryStore.Store.DeleteImage | models.py:33-43 | the store becomes the image cascade; consistency is kept |
| ItineraryStore.Store.HandleGet | itinerary/itinerary.py:63-113 | the graph iff the slug is in use; otherwise 404 "Itinerary not found" (the corrected mapping) |

## Left out

- Character classes are ASCII only. `\w`, `\s`, `str.strip` and `str.lower` are
  modelled on ASCII letters, digits, `_` and the ASCII whitespace characters.
  A non-ASCII character is treated as neither a word character nor whitespace,
  so `slugify` drops it. There is no Unicode case folding.
- uuid4 and `datetime.now()` are parameters. The k-th uuid text drawn during a
  creation is `uuid(k)`, and ids are drawn in the order the rows are created.
  That order is a modelling choice: the ORM draws a default id when it
  flushes, not when the object is made.
- Assembly.PlanIds: does not model the randomness of uuid4. Ids that collide
  with each other or with committed ids make the flush fail, as in the
  database.
- The intermediate `db.flush()` calls of `create_itinerary` (lines 162, 176,
  186 and 193) are folded into the single commit. `Session.FlushThen` proves
  that flushing in steps and flushing once give the same tables, so the only
  difference is which step reports an error. Since the handler has no
  `try`, every failure ends the request the same way: the framework answers
  500 and the session is rolled back when it closes.
- ItineraryStore.Store.Create: all database failures are one `IntegrityError`
  (empty title against the NOT NULL slug, a slug in use, a primary key in
  use). Which constraint fires first depends on the engine.
- The helper `add_images_with_links` is imported from `functions.py`, but that
  file does not define it, so its body is not part of this model. It is modelled as adding one
  `Image` and one `ImageLink(image_id, entity_type, entity_id)` per entry.
- Response validation is not modelled. This covers `ItinerarySchema.model_validate`
  and the response models. `ItinerarySchema` requires a `price` field that no
  column stores, and the request's `price` is dropped by the handler.
  Validation errors are modelled only as one kind of exception the handlers
  classify (`Errors.Raised`).
- ItineraryStore.Store.GetItinerary, ItineraryStore.Store.HandleGet and
  ItineraryStore.Store.ListItineraries return the loaded graphs. As written,
  `ItinerarySchema.model_validate` rejects every stored itinerary, because no
  column supplies the required `price`. So getting an existing itinerary, or
  listing a non-empty store, ends in the handler's validation branch (422
  "Data validation error"). This is left out on purpose: the model states
  what the handlers load, not the response schema's rejection of it.
- Payload.CreateRequest: `images` and the nested `images` lists are plain
  sequences. A `null` list, which the schema allows, is not modelled.
- Logging, routing, the media host (`uploads/`), the `db.refresh` and the
  success message text are left out. The `selectinload` options are modelled
  only as the shape of the loaded graph (`Records.Graph`), not as queries.
- Records.Graph: relations are maps keyed by id. A list order and duplicate
  links to the same image are not modelled: two links that name one image
  give one entry. `Map.image` is a map with at most the linked images, not a
  single optional object.
- Cascade.DeleteItineraryRows: the image links of deleted owners stay, because
  the relations are view-only. Removing a child from a collection while the
  parent lives (`delete-orphan`) is not modelled, because no handler does so.
- Assembly.AssembleGraphDayImages: states that every payload image is among
  the loaded day's images, not that there are no others. A committed link may
  already carry the new day's id as its `entity_id`, since nothing ties
  `entity_id` to a row.
- Assembly.AssembleGraphHotelImages: states that every payload image is among
  the loaded hotel's images, not that there are no others, for the same
  reason.
- The update path is modelled only as the `before_update` listener
  (`Entities.ItineraryEntity.BeforeUpdate`). No handler in the core changes an
  itinerary's fields, but the create handler adds days, a map and tags to the
  new itinerary's collections, so the listener runs at its later flushes and
  at the commit. It then writes the slug the insert listener already wrote
  (`Entities.UpdateAfterInsertKeepsSlug`), so the creation is modelled
  without it.

## Findings

| source | as written | input that shows it | evidently intended | confidence | as-written member | corrected member |
|---|---|---|---|---|---|---|
| itinerary/itinerary.py:84-113 | The `HTTPException(404, "Itinerary not found")` raised inside the `try` is an `Exception`, so `except Exception` catches it and answers 500 with detail "An unexpected error occurred: 404: Itinerary not found". The same happens in `delete_itinerary` (lines 120-145). | `GET /itineraries/no-such-slug` on any store where no itinerary has the slug `no-such-slug` | answer 404 "Itinerary not found" | not executed | Errors.NotFoundBecomesServerError | Errors.IntendedNotFoundIff |

`Errors.Classify` models the `except` chain as written, and
`Errors.NotFoundBecomesServerError` shows that it turns the not-found
exception into a 500. `Errors.ClassifyIntended` lets that exception through
as 404, and `Errors.IntendedNotFoundIff` proves that it answers 404 exactly
for a missing itinerary. `ItineraryStore.Store.HandleGet` uses the corrected
mapping.
