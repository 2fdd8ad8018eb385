/**
 * The enumerations and records the run depends on. `TrackerType`, `ExitState`,
 * `ExistingScreenshotAction`, `TrackerCredential` and the `TrackerHandler` annotation are
 * not part of this model: the constants and fields are the ones the modelled code uses,
 * and the lookups defined there or found by reflection (`TrackerType.find`,
 * `TrackerType.isEnabled`, `TrackerHandlerFactory.findMatchingHandler`) are passed in as
 * parameters where needed.
 */
module TrackerTypes {

  /** How a tracker's profile page is reached. */
  datatype TrackerType = HEADLESS | MANUAL | CLOUDFLARE_CHECK | NON_ENGLISH

  /** `TrackerType.ALL_VALUES`: every type once, in declaration order. */
  const AllTrackerTypes: seq<TrackerType> := [HEADLESS, MANUAL, CLOUDFLARE_CHECK, NON_ENGLISH]

  /** The outcome of a whole run. */
  datatype ExitState = SUCCESS | PARTIAL_FAILURE | FAILURE

  /** What to do when a screenshot for the tracker already exists. */
  datatype ExistingScreenshotAction = CREATE_ANOTHER | OVERWRITE | SKIP

  /** One row of the tracker file. */
  datatype TrackerCredential = TrackerCredential(name: string, username: string, password: string)

  /** What a handler's annotation declares about its tracker. */
  datatype TrackerHandlerInfo = TrackerHandlerInfo(name: string, trackerType: TrackerType, adult: bool)
}
