/** The exceptions that can end one scheduled evaluation. None of them is caught. */
module Errors {

  datatype Error =
    /** The orchestrator listing for a region raised (the region is not known to the catalogue). */
    | UnknownRegion(region: string)
    /** A version string did not parse as a semantic version. */
    | MalformedVersion(text: string)
    /** `max` was applied to an empty list: the region offers no non-preview release. */
    | NoStableVersion
    /** A raw inventory record lacks one of the keys `id`, `location`, `version`. */
    | MissingField(key: string)
}
