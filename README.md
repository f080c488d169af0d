# Face verification decision core, in Dafny

This project models the decision logic of an Android face-enrollment and
face-verification app. It also proves properties of that logic. Camera capture,
on-device ML inference, storage and UI are treated as collaborators outside the
model. The model covers:

- **Aspect-fill projection and face crop** (`ImageUtils.kt`, module `ImageUtils`).
  The camera image is scaled so that it covers the preview, and one axis gets a
  centring padding. The crop rectangle is the first detection's bounding box,
  clamped to the bitmap.
- **Pose classifier** (`methods.kt`, module `FaceMethods`). For the first
  detection, the six keypoints are projected into preview space. The face counts
  as inside only if all six lie in the guide circle. Otherwise the frame is
  `OutsideOfCircle`. Inside the circle, a decision tree on the face centre's
  offsets gives LEFT, RIGHT, UP, DOWN or FORWARD.
- **Enrollment pose script** (`AddFacePage.kt`, module `AddFacePage`). The
  script is FORWARD, LEFT, RIGHT, UP, DOWN, each with count 20. A pure
  `Transition` on a state snapshot is the specification. The class
  `AddFacePageSession` holds the page's fields (`addFaceState`,
  `indexAction`, `countDirection`, `capturedBitmaps`, `takePhoto`), and
  its methods are proved against `Transition`. The class invariant says there
  is one captured (or pending) photo per completed action.
- **Best-of-N matcher and colour bands** (`VerifyFacePage.kt`, module
  `VerifyFacePage`). An identity's score is its best similarity to the query.
  Identities scoring strictly above the threshold are reported, in gallery order.
  The similarity metric is a function parameter.
- **Embedding-list storage codec** (`AppDatabase.kt`, modules `Base64` and
  `AppDatabase`). Each byte array is Base64-encoded (section 4 of RFC 4648) and
  the texts are joined with `;`. Reading splits on `;` and decodes. The round
  trip holds for every list except `[[]]`.

Arithmetic is on `real`. Kotlin's `Float.toInt()` is written out as truncation
toward zero.

Four behaviours of the code worth knowing:

- A step completes on the frame that arrives with `countDirection >= count`, so a
  step needs `count + 1` matching frames.
- The padding axis is chosen by the image's own aspect
  (`PaddingFollowsImageAspect`, `ImageCentreOnPreviewCentreIff`).
- The first in-circle frame after the last action moves the page to PREVIEW;
  every later frame leaves the state unchanged.
- Every out-of-circle frame on the camera page restarts the script, including
  after the last action.

## Model

| member | source | states |
|---|---|---|
| ImageUtils.CalculateScaleAndPadding | app/src/main/java/com/ridwanfatur/faceverification/utils/ImageUtils.kt:49-67 | the scale is the larger axis ratio, so the scaled image covers the preview on both axes; both paddings are non-negative and at most one is non-zero |
| ImageUtils.PaddingFollowsImageAspect | app/src/main/java/com/ridwanfatur/faceverification/utils/ImageUtils.kt:57-64 | a portrait image gets paddingX = (imageW·r − cameraW)/2 and paddingY = 0; any other image gets paddingX = 0 and paddingY = (imageH·r − cameraH)/2 |
| ImageUtils.LandscapeByHeightIsUnpadded | app/src/main/java/com/ridwanfatur/faceverification/utils/ImageUtils.kt:57-64 | a landscape or square image scaled by the height ratio gets no padding on either axis |
| ImageUtils.ProjectionExample | app/src/main/java/com/ridwanfatur/faceverification/utils/ImageUtils.kt:49-67 | a 640x480 image on a 1080x1920 preview gets scale 4.0 and no padding on either axis |
| ImageUtils.TruncateToInt | app/src/main/java/com/ridwanfatur/faceverification/utils/ImageUtils.kt:21-24 | `Float.toInt()` truncates toward zero: the result is within 1 of the input, on the side of zero |
| ImageUtils.ClampedEdges | app/src/main/java/com/ridwanfatur/faceverification/utils/ImageUtils.kt:21-24 | left ≥ 0, top ≥ 0, right ≤ bitmap width, bottom ≤ bitmap height; left and top are the box edges clamped at 0 and truncated; right and bottom are the box edges clamped at the bitmap width and height and truncated toward zero |
| ImageUtils.GetCroppedFaceImage | app/src/main/java/com/ridwanfatur/faceverification/utils/ImageUtils.kt:12-30 | null exactly when there is no detection; otherwise left, top ≥ 0 and width, height ≥ 1, taken from the clamped edges with a minimum of 1 |
| ImageUtils.CropUsesFirstDetection | app/src/main/java/com/ridwanfatur/faceverification/utils/ImageUtils.kt:16 | only the first detection decides the crop |
| ImageUtils.CropWithinBitmapIff | app/src/main/java/com/ridwanfatur/faceverification/utils/ImageUtils.kt:21-29 | the crop ends inside the bitmap horizontally iff its left edge is left of the bitmap's width, and likewise vertically |
| FaceMethods.Project | app/src/main/java/com/ridwanfatur/faceverification/pages/add_face/libs/methods.kt:114-115 | projection into preview space is invertible: the normalised keypoint is recovered as (x + paddingX)/(imageW·r) and (y + paddingY)/(imageH·r) |
| FaceMethods.ImageCentreOnPreviewCentreIff | app/src/main/java/com/ridwanfatur/faceverification/pages/add_face/libs/methods.kt:114-115 | the image centre projects onto the preview centre iff the unpadded axis exactly fits the preview |
| FaceMethods.FillKeypoints | app/src/main/java/com/ridwanfatur/faceverification/pages/add_face/libs/methods.kt:96-118 | six slots; slot i holds the projected i-th keypoint when the detector supplied it and (-1, -1) otherwise |
| FaceMethods.ExtraKeypointsIgnored | app/src/main/java/com/ridwanfatur/faceverification/pages/add_face/libs/methods.kt:112-113 | keypoints past the sixth do not change the slots |
| FaceMethods.Decide | app/src/main/java/com/ridwanfatur/faceverification/pages/add_face/libs/methods.kt:139-173 | never OUTSIDE; RIGHT/LEFT iff the horizontal offset is strictly larger and beyond 0.3·faceWidth (sign decides); UP iff not, offset negative and beyond 0.5·faceHeight; DOWN iff not, offset positive and beyond 0.1·faceHeight |
| FaceMethods.DecideMirrorsHorizontally | app/src/main/java/com/ridwanfatur/faceverification/pages/add_face/libs/methods.kt:159-164 | negating the horizontal offset swaps LEFT and RIGHT and keeps every other result |
| FaceMethods.UpDownAsymmetry | app/src/main/java/com/ridwanfatur/faceverification/pages/add_face/libs/methods.kt:165-173 | an offset between 0.1 and 0.5 face heights reads DOWN below the centre but FORWARD above it |
| FaceMethods.Classify | app/src/main/java/com/ridwanfatur/faceverification/pages/add_face/libs/methods.kt:121-137 | the result is OUTSIDE_OF_CIRCLE iff some keypoint's squared distance to the preview centre exceeds (min(w,h)/2.5)² |
| FaceMethods.EarsOnlyGate | app/src/main/java/com/ridwanfatur/faceverification/pages/add_face/libs/methods.kt:139-154 | with all six points inside, the direction depends only on the eyes, the nose and the mouth |
| FaceMethods.MissingPointOutsideCircle | app/src/main/java/com/ridwanfatur/faceverification/pages/add_face/libs/methods.kt:96-101 | the placeholder (-1, -1) is outside the guide circle of any preview of positive size |
| FaceMethods.FewKeypointsAreOutside | app/src/main/java/com/ridwanfatur/faceverification/pages/add_face/libs/methods.kt:96-137 | a detection with fewer than six keypoints is classified OUTSIDE_OF_CIRCLE |
| FaceMethods.DirectionUsesFirstDetection | app/src/main/java/com/ridwanfatur/faceverification/pages/add_face/libs/methods.kt:82 | only the first detection decides the frame's direction |
| FaceMethods.DetectedDirection | app/src/main/java/com/ridwanfatur/faceverification/pages/add_face/libs/methods.kt:76-178 | the direction a frame reports: none iff there is no detection; OUTSIDE_OF_CIRCLE whenever the first detection has fewer than six keypoints |
| FaceMethods.CheckDetections | app/src/main/java/com/ridwanfatur/faceverification/pages/add_face/libs/methods.kt:76-178 | no action iff there is no detection; otherwise exactly one direction, the classification of the first detection's projected keypoints |
| AddFacePage.Transition | app/src/main/java/com/ridwanfatur/faceverification/pages/add_face/AddFacePage.kt:116-147 | a no-op unless on the camera page; keeps the index valid and the invariant; clears iff out of circle; photo iff the current direction arrives with the streak at count; progress +1 on a photo, 0 on a clear |
| AddFacePage.OutsideRestarts | app/src/main/java/com/ridwanfatur/faceverification/pages/add_face/AddFacePage.kt:118-121 | out of circle resets index and streak to 0 and clears the photos, even at the sentinel |
| AddFacePage.MatchGrowsStreak | app/src/main/java/com/ridwanfatur/faceverification/pages/add_face/AddFacePage.kt:123-138 | the current direction below count grows the streak by exactly 1 and keeps the index |
| AddFacePage.MismatchResetsStreak | app/src/main/java/com/ridwanfatur/faceverification/pages/add_face/AddFacePage.kt:139-141 | another in-circle direction zeroes the streak and keeps the index |
| AddFacePage.CompletedStreakAdvances | app/src/main/java/com/ridwanfatur/faceverification/pages/add_face/AddFacePage.kt:126-135 | a full streak takes a photo, resets the streak and advances the index, or sets -1 after the last action |
| AddFacePage.FinishedMovesToPreview | app/src/main/java/com/ridwanfatur/faceverification/pages/add_face/AddFacePage.kt:142-144 | at -1 any in-circle direction moves the page to PREVIEW |
| AddFacePage.Run | app/src/main/java/com/ridwanfatur/faceverification/pages/add_face/AddFacePage.kt:116-147 | any sequence of frames keeps the index valid and preserves the invariant |
| AddFacePage.CapturesFollowScript | app/src/main/java/com/ridwanfatur/faceverification/pages/add_face/AddFacePage.kt:105-135 | from the start, the photos held are exactly the actions completed since the last restart, one each, in list order |
| AddFacePage.FinishingTakesEveryAction | app/src/main/java/com/ridwanfatur/faceverification/pages/add_face/AddFacePage.kt:105-135 | reaching -1 means exactly five photos, for actions 0 to 4 in order |
| AddFacePage.StreakIsSuffix | app/src/main/java/com/ridwanfatur/faceverification/pages/add_face/AddFacePage.kt:123-141 | a streak of c means the last c frames all faced the current action's direction |
| AddFacePage.CaptureNeedsStreak | app/src/main/java/com/ridwanfatur/faceverification/pages/add_face/AddFacePage.kt:125-135 | a photo is taken only after count + 1 consecutive frames facing the current direction |
| AddFacePage.AddFacePageSession.constructor | app/src/main/java/com/ridwanfatur/faceverification/pages/add_face/AddFacePage.kt:70-113 | the page starts on CAMERA at index 0 with streak 0, no photos and the flag down |
| AddFacePage.AddFacePageSession.OnHandleFaceDirection | app/src/main/java/com/ridwanfatur/faceverification/pages/add_face/AddFacePage.kt:116-147 | the new state is the transition of the old; the flag is raised iff a photo is due; the photos are cleared iff out of circle |
| AddFacePage.AddFacePageSession.ProcessFrame | app/src/main/java/com/ridwanfatur/faceverification/pages/add_face/AddFacePage.kt:164-203 | a frame without a face changes nothing; otherwise the state follows the transition and a due photo's crop is appended, keeping one photo per completed action |
| AddFacePage.AddFacePageSession.OnBack | app/src/main/java/com/ridwanfatur/faceverification/pages/add_face/AddFacePage.kt:306-311 | back to CAMERA at index 0, streak 0, with no photos |
| Decimal.IntToStringRoundTrip | app/src/main/java/com/ridwanfatur/faceverification/pages/verify_face/VerifyFacePage.kt:540 | the id's string reads back as the id |
| Decimal.IntToStringInjective | app/src/main/java/com/ridwanfatur/faceverification/pages/verify_face/VerifyFacePage.kt:540 | distinct ids give distinct id strings |
| VerifyFacePage.MaxOf | app/src/main/java/com/ridwanfatur/faceverification/pages/verify_face/VerifyFacePage.kt:531-535 | the maximum of a non-empty list is one of its elements and no element exceeds it |
| VerifyFacePage.Score | app/src/main/java/com/ridwanfatur/faceverification/pages/verify_face/VerifyFacePage.kt:531-535 | an identity's score is the similarity of one of its embeddings and at least every other, or 0.0 with no embeddings |
| VerifyFacePage.Matches | app/src/main/java/com/ridwanfatur/faceverification/pages/verify_face/VerifyFacePage.kt:530-546 | no longer than the gallery; every row comes from a gallery identity with that identity's score, which is above the threshold |
| VerifyFacePage.ProcessImageEmbedding | app/src/main/java/com/ridwanfatur/faceverification/pages/verify_face/VerifyFacePage.kt:521-552 | empty when the query has no quantized vector or the gallery is empty; otherwise the matches |
| VerifyFacePage.MatchesAppend | app/src/main/java/com/ridwanfatur/faceverification/pages/verify_face/VerifyFacePage.kt:530-546 | the matches of a concatenated gallery are the concatenated matches, so output order is gallery order |
| VerifyFacePage.MatchesSingle | app/src/main/java/com/ridwanfatur/faceverification/pages/verify_face/VerifyFacePage.kt:537-545 | one identity yields its name, id string and score iff the score is strictly above the threshold, else nothing |
| VerifyFacePage.ReportedIff | app/src/main/java/com/ridwanfatur/faceverification/pages/verify_face/VerifyFacePage.kt:537-545 | an identity's row is in the output iff its score is strictly above the threshold |
| VerifyFacePage.EmptyIdentityReportedIff | app/src/main/java/com/ridwanfatur/faceverification/pages/verify_face/VerifyFacePage.kt:531-537 | an identity without embeddings is reported iff the threshold is negative |
| VerifyFacePage.BestOfThreeExample | app/src/main/java/com/ridwanfatur/faceverification/pages/verify_face/VerifyFacePage.kt:531-545 | embeddings scoring 0.2, 0.9 and 0.5 against threshold 0.8 report the identity with confidence 0.9 |
| VerifyFacePage.BandOf | app/src/main/java/com/ridwanfatur/faceverification/pages/verify_face/VerifyFacePage.kt:497-513 | the band's rank is the number of cut points (-0.5, 0, 0.5) at or below the value, so each band includes its lower bound |
| VerifyFacePage.ThresholdColor | app/src/main/java/com/ridwanfatur/faceverification/pages/verify_face/VerifyFacePage.kt:497-504 | alpha 0.7; red iff below -0.5, blue iff in [-0.5, 0), yellow iff in [0, 0.5), green iff at least 0.5 |
| VerifyFacePage.ConfidenceColor | app/src/main/java/com/ridwanfatur/faceverification/pages/verify_face/VerifyFacePage.kt:506-513 | alpha 0.8; red iff below -0.5, blue iff in [-0.5, 0), yellow iff in [0, 0.5), green iff at least 0.5 |
| VerifyFacePage.BandMonotone | app/src/main/java/com/ridwanfatur/faceverification/pages/verify_face/VerifyFacePage.kt:497-513 | a larger value never falls in a lower band |
| VerifyFacePage.ReportedBandAtLeastThreshold | app/src/main/java/com/ridwanfatur/faceverification/pages/verify_face/VerifyFacePage.kt:497-513 | within one matching call, every reported confidence is coloured in a band no lower than the band of the threshold that call used |
| Base64.Encode | app/src/main/java/com/ridwanfatur/faceverification/database/AppDatabase.kt:15 | four characters per started group of three bytes, all from the alphabet or '=', never ';' |
| Base64.Decode | app/src/main/java/com/ridwanfatur/faceverification/database/AppDatabase.kt:21 | a text that decodes is a whole number of four-character groups |
| Base64.DecodeShape | app/src/main/java/com/ridwanfatur/faceverification/database/AppDatabase.kt:21 | a decoded text of n groups gives between 3n − 2 and 3n bytes; any character outside the alphabet and '=' makes decoding fail |
| Base64.DecodeEncode | app/src/main/java/com/ridwanfatur/faceverification/database/AppDatabase.kt:15-21 | decoding an encoding gives back the bytes |
| AppDatabase.Join | app/src/main/java/com/ridwanfatur/faceverification/database/AppDatabase.kt:15 | the joined text starts with the first part, followed by ';' when there are more parts; `SplitJoin` and `JoinSplit` prove it inverse to splitting |
| AppDatabase.Split | app/src/main/java/com/ridwanfatur/faceverification/database/AppDatabase.kt:21 | at least one segment, none containing ';' |
| AppDatabase.SplitCount | app/src/main/java/com/ridwanfatur/faceverification/database/AppDatabase.kt:21 | n separators give n + 1 segments |
| AppDatabase.JoinSplit | app/src/main/java/com/ridwanfatur/faceverification/database/AppDatabase.kt:15-21 | joining the segments of a text with ';' gives back the text |
| AppDatabase.SplitJoin | app/src/main/java/com/ridwanfatur/faceverification/database/AppDatabase.kt:15-21 | splitting a join of one or more separator-free parts gives back the parts |
| AppDatabase.DecodeAll | app/src/main/java/com/ridwanfatur/faceverification/database/AppDatabase.kt:21 | on success one array per segment, each the decoding of its segment; failure iff some segment fails to decode |
| AppDatabase.FromList | app/src/main/java/com/ridwanfatur/faceverification/database/AppDatabase.kt:13-16 | the empty list is stored as "" |
| AppDatabase.ToList | app/src/main/java/com/ridwanfatur/faceverification/database/AppDatabase.kt:18-22 | "" reads as the empty list; any other text gives one element per ';'-separated segment, in order, each the decoding of its segment, and fails iff some segment fails to decode |
| AppDatabase.SeparatorCount | app/src/main/java/com/ridwanfatur/faceverification/database/AppDatabase.kt:15 | a non-empty list is stored with one ';' fewer than it has elements |
| AppDatabase.SingleEmptyArrayIsLost | app/src/main/java/com/ridwanfatur/faceverification/database/AppDatabase.kt:15-21 | a single empty array is stored as "" and read back as the empty list |
| AppDatabase.RoundTripIff | app/src/main/java/com/ridwanfatur/faceverification/database/AppDatabase.kt:13-22 | reading back what was stored gives the same list iff the list is not [[]] |

## Left out

- Float rounding: all projection, threshold and similarity arithmetic is on `real`. `maxSimilarity.toFloat()` narrowing and NaN ordering are not modelled.
- `ImageUtils.TruncateToInt`: does not model `Float.toInt()` saturation at the `Int` range or NaN mapping to 0, because bitmap coordinates are finite and small.
- The face detector, the image embedder and its cosine similarity are foreign ML calls. Detections are inputs, and the similarity is a function parameter of the matcher.
- `checkDetections` computes the projected bounding-box corners `x1`..`y2` (methods.kt lines 90-93) but never uses them, so they are not modelled.
- `AddFacePage.AddFacePageSession.OnHandleFaceDirection`: requires the photo flag to be down. The flag is modelled as raised synchronously and consumed in the same frame (`ProcessFrame`), so it is always down between frames. The coroutine that sets `takePhoto` and the `isProcessing` drop-frame gate are concurrency and are not modelled.
- `onAccept`, `onSaveFaceData` and the LOADING page: persistence and embedder glue, not modelled. The LOADING value exists but no modelled operation reaches it.
- `ImageUtils.GetCroppedFaceImage`: returns a rectangle even when its left edge is at or beyond the bitmap width or its top edge at or beyond the bitmap height. In those cases `Bitmap.createBitmap` (ImageUtils.kt line 29) throws `IllegalArgumentException`, and `CropWithinBitmapIff` names exactly these cases. The throw is not modelled because detection runs on the same bitmap, so the detector's box starts inside it.
- `FaceMethods.FillKeypoints`: a detection whose keypoint `Optional` is empty makes `keypoints().get()` (methods.kt line 112) throw `NoSuchElementException`. The model takes such a detection as one with no keypoints, which `FaceMethods.CheckDetections` classifies OUTSIDE_OF_CIRCLE. The face detector always supplies its six keypoints, so this path is not modelled.
- The threshold chip is coloured from an animated copy of the threshold that lags the value used for matching (VerifyFacePage.kt lines 202 and 336). `ReportedBandAtLeastThreshold` relates the colours to one matching call's threshold only.
- `imageProxyToBitmap` (rotation and mirroring) and `Bitmap.createBitmap`: platform image I/O. Only the crop rectangle is modelled, and a captured bitmap is represented by its crop rectangle.
- `Base64.Encode`: Android's `Base64.encodeToString(…, Base64.DEFAULT)` inserts a line feed after every 76 output characters and ends every non-empty output with a line feed (one byte `0` is stored as "AA==\n"). The model emits the plain RFC 4648 text without line feeds, so its exact length 4·⌈n/3⌉ is not the stored length. A line feed is not ';', so the join/split structure is unchanged. Android's Base64 class is not part of this model.
- `Base64.Decode` / `Base64.DecodeShape`: Android's `Base64.DEFAULT` decoder skips every character outside the alphabet (line feeds included) and accepts missing padding. The model's decoder is strict and fails on such text, so the failure `DecodeShape` proves for characters outside the alphabet holds for the model, not for Android. It accepts everything the model's encoder produces, so the round trip is the same; texts written by other means may decode under Android and fail in the model.
- Kotlin's `Byte` is signed; bytes are modelled as 0..255, which is the same bit pattern for Base64.
- Room (`FaceItemDao`, `AppDatabase.getInstance`), Gson hand-off between pages, navigation, permissions, the wall clock and all Compose rendering (guide circle drawing, progress arc, cards, animations) are not modelled.
