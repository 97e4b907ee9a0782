# Locavel: favourites and place registration

This project is a Dafny model of two pieces of the Locavel iOS app's
sequential logic. Each comes with proofs of what it promises.

- **The wish-list view model** (`RestaurantViewModel`) holds an in-memory
  list of `SpotRestaurant` records.
  - `favoriteRestaurants` is the list filtered on `isFavorite`.
  - `toggleFavorite(for:)` finds the first record with the same id and
    flips its favourite flag in place.
  - Module `Favorites` (`favorites.dfy`) models the list with pure
    functions (`FavoritesOf`, `FirstMatch`, `Toggle`). A class
    `RestaurantViewModel` holds `localRestaurants` as a `seq` field and
    updates it in place. Its linear search `FirstIndex` is proved against
    `FirstMatch`.
- **The place-registration screen's `submitPlace()`** (module
  `PlaceRegistration`, `place_registration.dfy`). The class
  `RegisterPlaceView` holds the `@State` fields.
  - `SubmitPlace` checks the required fields and raises `isSubmitting`.
  - It builds a `POST` request with the bearer token and the
    multipart/form-data content type.
  - It grows the body by successive appends. `BuildBody`,
    `AppendJsonPart` and `AppendImagePart` do this.
  - It lowers the flag again when the JSON serialiser fails.
  - `SubmitTapped` is the button, which is disabled while `isSubmitting`
    holds.
  - `Complete` is the `dataTask` completion handler.
  - `SubmitPlace` and `SubmitTapped` are proved against the reference
    function `Submission`, and lemmas state what `Submission` sends.
  - `BuildBody` is proved equal to the reference layout `Multipart.Body`
    of the place's parts. `AppendJsonPart` and `AppendImagePart` are proved
    equal to the sections `DTOSection` and `ImageSection`, which
    `DTOPartBytes` and `ImagePartBytes` tie to that layout.
  - `Complete` and `CompleteOnSuccess` state the new flag, `inFlight` and
    `dismissed` directly. Both keep the invariant `AtMostOneInFlight`, as
    `SubmitTapped` does.
- **The multipart/form-data layout** of RFC 7578 with the delimiters of
  section 5.1.1 of RFC 2046 (module `Multipart`, `multipart.dfy`). This
  is the reference layout the appends are proved equal to.
- **UTF-8** as `String.data(using: .utf8)` produces it (module `Utf8`,
  `utf8.dfy`). The decoder `Decode` stands for `String(data:encoding: .utf8)`
  and is proved to be `Encode`'s exact inverse: bytes decode to a string
  if and only if they are that string's encoding. It serves as `Encode`'s
  partner; no member applies it to a response, whose bytes only feed the log.

Some inputs come from outside the view. Each is a parameter:
- the boundary, a fresh `UUID` string;
- the access token from `TokenManager`;
- the JSON serialiser, a function from the DTO to optional bytes;
- the JPEG compressor, a function from the image to optional bytes.

The network is modelled by the list `inFlight` of requests that have been
handed over and not yet completed. A completion is modelled as one step.

Source paths below are relative to the repository root.

## Model

| member | source | states |
|---|---|---|
| Favorites.FavoritesOf | Locavel/Locavel/Content/WishList/View/RestaurantViewModel.swift:18-20 | the favourites are no more than the records, and each one is a favourite record taken from the list |
| Favorites.FavoritePositionsExact | Locavel/Locavel/Content/WishList/View/RestaurantViewModel.swift:18-20 | the positions the filter keeps strictly increase, and a position is kept exactly when its record is a favourite |
| Favorites.FavoritesAtPositions | Locavel/Locavel/Content/WishList/View/RestaurantViewModel.swift:18-20 | the k-th favourite is the record at the k-th kept position |
| Favorites.FavoritesAreOrderedSubsequence | Locavel/Locavel/Content/WishList/View/RestaurantViewModel.swift:18-20 | `favoriteRestaurants` is exactly the subsequence of favourite records, in list order |
| Favorites.InFavoritesIff | Locavel/Locavel/Content/WishList/View/RestaurantViewModel.swift:18-20 | a record is among the favourites if and only if it is in the list with its flag set |
| Favorites.Toggle | Locavel/Locavel/Content/WishList/View/RestaurantViewModel.swift:23-24 | the list after `toggleFavorite`; `ToggleEffect` pins it down, and `ToggleTwice` and `ToggleKeepsIds` state its inverse and its invariant |
| Favorites.ToggleKeepsIds | Locavel/Locavel/Content/WishList/View/RestaurantViewModel.swift:24 | a toggle keeps the length and every position's id, so unique ids stay unique |
| Favorites.SeedRestaurants | Locavel/Locavel/Content/WishList/View/RestaurantViewModel.swift:12-16 | the three seed records in source order; `SeedHasNoFavorites` states their number and that none is a favourite |
| Favorites.FirstMatch | Locavel/Locavel/Content/WishList/View/RestaurantViewModel.swift:23 | `firstIndex(where:)` gives an index whose record has the id and no earlier record does; it gives nil if and only if no record has the id |
| Favorites.FirstMatchAt | Locavel/Locavel/Content/WishList/View/RestaurantViewModel.swift:23 | the first position that holds the id is the one found |
| Favorites.ToggleEffect | Locavel/Locavel/Content/WishList/View/RestaurantViewModel.swift:22-26 | a toggle keeps the length; without a matching id the list is unchanged; otherwise only the first matching record changes, and in it only `isFavorite`, which is negated |
| Favorites.FirstMatchIgnoresFlags | Locavel/Locavel/Content/WishList/View/RestaurantViewModel.swift:23-24 | lists with the same ids position by position have the same first match, so flipping flags does not move it |
| Favorites.ToggleTwice | Locavel/Locavel/Content/WishList/View/RestaurantViewModel.swift:22-26 | toggling the same restaurant twice restores the list |
| Favorites.IsFavoriteIdIff | Locavel/Locavel/Content/WishList/View/RestaurantViewModel.swift:18-20 | some favourite has the id if and only if some record with that id is flagged |
| Favorites.ToggleFlipsFavorite | Locavel/Locavel/Content/WishList/View/RestaurantViewModel.swift:18-24 | after a toggle on a present id, the toggled record is among the favourites if and only if it was not before; with unique ids, the same holds for the id |
| Favorites.ToggleChangesFavoriteCount | Locavel/Locavel/Content/WishList/View/RestaurantViewModel.swift:18-24 | flipping one record changes the number of favourites by exactly one, down if it was a favourite and up if not |
| Favorites.SeedHasNoFavorites | Locavel/Locavel/Content/WishList/View/RestaurantViewModel.swift:12-16 | the seed list has three records and no favourites |
| Favorites.RestaurantViewModel.constructor | Locavel/Locavel/Content/WishList/View/RestaurantViewModel.swift:12-16 | given three distinct ids (fresh `UUID`s), the view model starts with the three seed restaurants in their fixed order, with no favourites and unique ids |
| Favorites.RestaurantViewModel.FavoriteRestaurants | Locavel/Locavel/Content/WishList/View/RestaurantViewModel.swift:18-20 | a record is in `favoriteRestaurants` if and only if it is in `localRestaurants` and flagged |
| Favorites.RestaurantViewModel.FirstIndex | Locavel/Locavel/Content/WishList/View/RestaurantViewModel.swift:23 | the front-to-back search returns exactly the first match |
| Favorites.RestaurantViewModel.ToggleFavorite | Locavel/Locavel/Content/WishList/View/RestaurantViewModel.swift:22-26 | the new list is the old list toggled at the restaurant's id; its length is unchanged and unique ids stay unique |
| Utf8.Encode | Locavel/Locavel/Content/Surround/BottomSheet/RegisterPlace/RegisterPlaceView.swift:167 | `.data(using: .utf8)` on a string; `EncodeLength`, `EncodeAppend` and `EncodeAscii` state its size, its distribution over concatenation and its ASCII bytes, and `DecodeIff` its inverse |
| Utf8.EncodeCharShape | Locavel/Locavel/Content/Surround/BottomSheet/RegisterPlace/RegisterPlaceView.swift:167 | a character encodes to 1 to 4 bytes; it takes one byte if and only if it is ASCII; the bytes after the first are continuation bytes |
| Utf8.EncodeLength | Locavel/Locavel/Content/Surround/BottomSheet/RegisterPlace/RegisterPlaceView.swift:167 | an encoded string takes between one and four bytes per character |
| Utf8.EncodeAppend | Locavel/Locavel/Content/Surround/BottomSheet/RegisterPlace/RegisterPlaceView.swift:167-171 | encoding two strings appended gives their encodings appended |
| Utf8.EncodeAscii | Locavel/Locavel/Content/Surround/BottomSheet/RegisterPlace/RegisterPlaceView.swift:168-169 | an ASCII header line encodes one byte per character, each byte the character's code |
| Utf8.SequenceLength | Locavel/Locavel/Content/Surround/BottomSheet/RegisterPlace/RegisterPlaceView.swift:212 | a leading byte announces at most four bytes |
| Utf8.DecodeChar | Locavel/Locavel/Content/Surround/BottomSheet/RegisterPlace/RegisterPlaceView.swift:212 | a decoded character consumes as many bytes as its leading byte announces, and no more than are available |
| Utf8.DecodeEncodeChar | Locavel/Locavel/Content/Surround/BottomSheet/RegisterPlace/RegisterPlaceView.swift:212 | decoding the encoding of a character gives back that character and its length, whatever follows it |
| Utf8.DecodeEncode | Locavel/Locavel/Content/Surround/BottomSheet/RegisterPlace/RegisterPlaceView.swift:212 | round trip: decoding the UTF-8 encoding of any string gives the string back |
| Utf8.EncodeDecodeChar | Locavel/Locavel/Content/Surround/BottomSheet/RegisterPlace/RegisterPlaceView.swift:212 | strictness for one character: the bytes a character was decoded from are exactly its encoding |
| Utf8.EncodeTwoBack | Locavel/Locavel/Content/Surround/BottomSheet/RegisterPlace/RegisterPlaceView.swift:212 | a well-formed two-byte sequence is the encoding of the value it carries |
| Utf8.EncodeThreeBack | Locavel/Locavel/Content/Surround/BottomSheet/RegisterPlace/RegisterPlaceView.swift:212 | a well-formed three-byte sequence is the encoding of the value it carries |
| Utf8.EncodeFourBack | Locavel/Locavel/Content/Surround/BottomSheet/RegisterPlace/RegisterPlaceView.swift:212 | a well-formed four-byte sequence is the encoding of the value it carries |
| Utf8.DecodeCons | Locavel/Locavel/Content/Surround/BottomSheet/RegisterPlace/RegisterPlaceView.swift:212 | a non-empty input decodes as its first character followed by the decoding of the rest |
| Utf8.EncodeCons | Locavel/Locavel/Content/Surround/BottomSheet/RegisterPlace/RegisterPlaceView.swift:167 | a character's bytes followed by the rest's bytes are the encoding of the whole string |
| Utf8.EncodeDecode | Locavel/Locavel/Content/Surround/BottomSheet/RegisterPlace/RegisterPlaceView.swift:212 | strictness: whatever bytes decode to a string are exactly that string's encoding |
| Utf8.DecodeIff | Locavel/Locavel/Content/Surround/BottomSheet/RegisterPlace/RegisterPlaceView.swift:212 | `Decode` and `Encode` are inverse: bytes decode to a string if and only if they are its encoding |
| Multipart.Body | Locavel/Locavel/Content/Surround/BottomSheet/RegisterPlace/RegisterPlaceView.swift:154-189 | the multipart body of the parts, then the closing delimiter; `BodyStartsWithFirstPart`, `BodyEndsWithClosingDelimiter` and `PartsBytesLength` state how it begins, how it ends and its size |
| Multipart.PartsBytesAppend | Locavel/Locavel/Content/Surround/BottomSheet/RegisterPlace/RegisterPlaceView.swift:178-187 | adding a part at the end adds its bytes after those of the earlier parts |
| Multipart.BodyStartsWithFirstPart | Locavel/Locavel/Content/Surround/BottomSheet/RegisterPlace/RegisterPlaceView.swift:167 | a body with parts begins with its first part, and so with `--boundary CRLF` |
| Multipart.PartStartsWithDelimiter | Locavel/Locavel/Content/Surround/BottomSheet/RegisterPlace/RegisterPlaceView.swift:182 | every part begins with the opening delimiter |
| Multipart.BodyEndsWithClosingDelimiter | Locavel/Locavel/Content/Surround/BottomSheet/RegisterPlace/RegisterPlaceView.swift:189 | every body ends with `--boundary-- CRLF` |
| Multipart.PartsBytesLength | Locavel/Locavel/Content/Surround/BottomSheet/RegisterPlace/RegisterPlaceView.swift:154-189 | the parts take their header overhead plus their total content length, and the body takes that plus the closing delimiter's bytes |
| Multipart.DelimiterLengths | Locavel/Locavel/Content/Surround/BottomSheet/RegisterPlace/RegisterPlaceView.swift:189 | with an ASCII boundary such as a `UUID` string, the opening delimiter line takes the boundary's length plus 4 bytes and the closing line plus 6 |
| PlaceRegistration.Lowercased | Locavel/Locavel/Content/Surround/BottomSheet/RegisterPlace/RegisterPlaceView.swift:160 | lowercasing keeps the length and leaves no upper-case letter |
| PlaceRegistration.LowercasedSpec | Locavel/Locavel/Content/Surround/BottomSheet/RegisterPlace/RegisterPlaceView.swift:160 | each upper-case letter becomes its lower-case partner and every other character stays; lowercasing twice is lowercasing once |
| PlaceRegistration.LowercasedFixesLower | Locavel/Locavel/Content/Surround/BottomSheet/RegisterPlace/RegisterPlaceView.swift:160 | a string without upper-case letters is its own lower case |
| PlaceRegistration.HasRequiredFields | Locavel/Locavel/Content/Surround/BottomSheet/RegisterPlace/RegisterPlaceView.swift:140 | the guard; `MissingFieldsSendNothing` and `CompleteFormIsSent` state what happens on either side of it |
| PlaceRegistration.MakeDTO | Locavel/Locavel/Content/Surround/BottomSheet/RegisterPlace/RegisterPlaceView.swift:157-163 | the `placeDTO` dictionary; `CompleteFormIsSent` states that it carries every field unchanged except the category, which is lowercased |
| PlaceRegistration.ImageData | Locavel/Locavel/Content/Surround/BottomSheet/RegisterPlace/RegisterPlaceView.swift:181 | the photo's bytes; `SentBodyLayout` states that they are present if and only if an image is selected and compresses |
| PlaceRegistration.Submission | Locavel/Locavel/Content/Surround/BottomSheet/RegisterPlace/RegisterPlaceView.swift:139-191 | the reference outcome of `submitPlace`; `SubmitPlace` is proved equal to it, and `MissingFieldsSendNothing`, `CompleteFormIsSent`, `SentIffSerialised` and `SentBodyLayout` state what it sends |
| PlaceRegistration.ServerErrorDismisses | Locavel/Locavel/Content/Surround/BottomSheet/RegisterPlace/RegisterPlaceView.swift:203-218 | a 500 response without a transport error dismisses the view under the handler as written, though it is not a success |
| PlaceRegistration.MissingFieldsSendNothing | Locavel/Locavel/Content/Surround/BottomSheet/RegisterPlace/RegisterPlaceView.swift:140-143 | with an empty name, address or category, or a rating of 0 or less, nothing is built or sent |
| PlaceRegistration.CompleteFormIsSent | Locavel/Locavel/Content/Surround/BottomSheet/RegisterPlace/RegisterPlaceView.swift:147-176 | for a complete form, the DTO carries name, address, telephone number and rating unchanged and the category lowercased; the submission fails if and only if the serialiser fails; a sent request is a `POST` to the places endpoint with `Bearer <token>` and `multipart/form-data; boundary=<boundary>` |
| PlaceRegistration.SentIffSerialised | Locavel/Locavel/Content/Surround/BottomSheet/RegisterPlace/RegisterPlaceView.swift:165-176 | a complete form is sent if and only if the serialiser produces JSON |
| PlaceRegistration.SentBodyLayout | Locavel/Locavel/Content/Surround/BottomSheet/RegisterPlace/RegisterPlaceView.swift:154-191 | the sent body is the multipart body of the DTO part and, exactly when an image is selected and compresses, the image part: one part without a photo and two with one; byte for byte, it is the DTO section, the image section and the closing delimiter |
| PlaceRegistration.PlaceBody | Locavel/Locavel/Content/Surround/BottomSheet/RegisterPlace/RegisterPlaceView.swift:165-189 | the reference body of the place parts equals the sections as the view appends them |
| PlaceRegistration.PlaceBodyWithoutImage | Locavel/Locavel/Content/Surround/BottomSheet/RegisterPlace/RegisterPlaceView.swift:165-189 | without a photo, the body is the DTO section and the closing delimiter |
| PlaceRegistration.PlaceBodyWithImage | Locavel/Locavel/Content/Surround/BottomSheet/RegisterPlace/RegisterPlaceView.swift:165-189 | with a photo, the body is the DTO section, the image section and the closing delimiter |
| PlaceRegistration.DTOPartBytes | Locavel/Locavel/Content/Surround/BottomSheet/RegisterPlace/RegisterPlaceView.swift:167-171 | the `placeDTO` part is `--boundary CRLF`, its disposition, `Content-Type: application/json`, a blank line, the JSON and a CRLF |
| PlaceRegistration.ImagePartBytes | Locavel/Locavel/Content/Surround/BottomSheet/RegisterPlace/RegisterPlaceView.swift:182-186 | the `placeImgUrls` part carries filename `image.jpg` and `Content-Type: image/jpeg` before the JPEG bytes and a CRLF |
| PlaceRegistration.ExampleSubmission | Locavel/Locavel/Content/Surround/BottomSheet/RegisterPlace/RegisterPlaceView.swift:157-191 | the form "A", "B", category "Food", 3 stars and no photo serialises the category as "food" and is sent as a one-part body |
| PlaceRegistration.RegisterPlaceView.constructor | Locavel/Locavel/Content/Surround/BottomSheet/RegisterPlace/RegisterPlaceView.swift:17-24 | the form starts empty with no stars and no photo, the button enabled and nothing in flight |
| PlaceRegistration.RegisterPlaceView.Fill | Locavel/Locavel/Content/Surround/BottomSheet/RegisterPlace/RegisterPlaceView.swift:17-24 | the input controls set the form's bindings |
| PlaceRegistration.RegisterPlaceView.SubmitPlace | Locavel/Locavel/Content/Surround/BottomSheet/RegisterPlace/RegisterPlaceView.swift:139-193 | the outcome is `Submission` of the form; `isSubmitting` is untouched on missing fields, false after a serialiser failure and true once sent; only a sent request joins `inFlight` |
| PlaceRegistration.RegisterPlaceView.BuildBody | Locavel/Locavel/Content/Surround/BottomSheet/RegisterPlace/RegisterPlaceView.swift:154-189 | the appended body is the multipart body of the DTO part and the optional image part |
| PlaceRegistration.RegisterPlaceView.AppendJsonPart | Locavel/Locavel/Content/Surround/BottomSheet/RegisterPlace/RegisterPlaceView.swift:167-171 | the five appends add the DTO section after what was there |
| PlaceRegistration.RegisterPlaceView.AppendImagePart | Locavel/Locavel/Content/Surround/BottomSheet/RegisterPlace/RegisterPlaceView.swift:182-186 | the five appends add the image section after what was there |
| PlaceRegistration.RegisterPlaceView.SubmitTapped | Locavel/Locavel/Content/Surround/BottomSheet/RegisterPlace/RegisterPlaceView.swift:111-124 | a tap while `isSubmitting` holds does nothing; otherwise it submits the form. At most one request is in flight, and `isSubmitting` holds exactly while one is |
| PlaceRegistration.RegisterPlaceView.Complete | Locavel/Locavel/Content/Surround/BottomSheet/RegisterPlace/RegisterPlaceView.swift:193-218 | the handler as written: `isSubmitting` is cleared whatever happened and the request leaves `inFlight`; the view is dismissed if and only if there was no transport error, whatever the status |
| PlaceRegistration.RegisterPlaceView.CompleteOnSuccess | Locavel/Locavel/Content/Surround/BottomSheet/RegisterPlace/RegisterPlaceView.swift:193-218 | the corrected handler: the flag and `inFlight` are restored as before, but the view is dismissed only after a 2xx response |
| PlaceRegistration.TapCompleteForm | Locavel/Locavel/Content/Surround/BottomSheet/RegisterPlace/RegisterPlaceView.swift:111-124 | a tap on an idle view with a complete, serialisable form sends a request and disables the button |
| PlaceRegistration.TwoTapsSendOneRequest | Locavel/Locavel/Content/Surround/BottomSheet/RegisterPlace/RegisterPlaceView.swift:111-219 | after two taps before the response exactly one request has been sent; the second tap does nothing; under the corrected handler the view is dismissed exactly on success |

## Left out

- The SwiftUI view trees are presentation only and are not modelled. This covers `RegisterPlaceView.body`, `StartView` with its splash timer, and `ContentView`.
- `PhotoPicker` and its `Coordinator` are a bridge to the system photo picker. A picked image appears only as the `selectedImage` binding that `Fill` sets.
- `URLSession`, threading and the `DispatchQueue.main.async` hops are not modelled. Sending is an append to `inFlight`. The completion handler is one atomic step: the two main-queue blocks are not modelled as separate events.
- `TokenManager.shared.accessToken` is not part of this model. The token is a parameter.
- `JSONSerialization` is not modelled; it is an opaque, possibly failing function from the DTO to bytes. Its key order is unspecified, so nothing is claimed about the JSON bytes.
- `jpegData(compressionQuality: 0.8)` is not modelled; it is an opaque function from the image to optional bytes.
- `UUID()` is not modelled; the boundary is a parameter.
- The code never checks that the boundary is absent from the JSON or JPEG bytes. No delimiter-uniqueness property is claimed.
- The `print` calls are left out. This includes logging the status code and the decoded response, and the missing-fields message. The response bytes are therefore not modelled; `Decode` appears only as `Encode`'s proved inverse.
- PlaceRegistration.Lowercased: only ASCII `A`–`Z` are mapped. Foundation's full Unicode case mapping is not modelled.
- The `SpotRestaurant` struct is not among the source files. Its fields are inferred from their uses, and the seed records' `isFavorite` is taken as `false`. The `UUID` ids are modelled as natural numbers given to the constructor, which requires them to be distinct, as fresh `UUID`s are.
- `rating: Double` in `SpotRestaurant` is modelled as a Dafny `real`. The ratings are only stored and copied.
- The `@Published` change notifications are not modelled. The observable state is the `localRestaurants` field.

## Findings

| source | as written | input that shows it | evidently intended | confidence | as-written member | corrected member |
|---|---|---|---|---|---|---|
| Locavel/Locavel/Content/Surround/BottomSheet/RegisterPlace/RegisterPlaceView.swift:203-218 | the status code is only printed, and the view is dismissed after any response without a transport error | `Completion(error: None, statusCode: Some(500), data: None)` dismisses the view as if the place had been registered | dismiss only after a 2xx response, as the comment on the dismissal says ("after a successful registration"), and keep the form on screen otherwise | medium; not executed | PlaceRegistration.ServerErrorDismisses | PlaceRegistration.RegisterPlaceView.CompleteOnSuccess |
