/** The settings object, fixed to the values the services read from it. */
module Config {

  /** Directory under which accepted resumes are written. */
  const UPLOAD_DIR: string := "uploads"

  /** Addresses notified of lead events; only the first is used. */
  const ATTORNEY_EMAILS: seq<string> := ["attorney@example.com"]

  /** Default identity of the single internal user (an empty hash means "not configured"). */
  const INTERNAL_USER_USERNAME: string := "admin"
  const INTERNAL_USER_PASSWORD_HASH: string := ""

  /**
   * The internal user's settings. They come from the environment, so the
   * login and token checks take them as a parameter; these are the defaults.
   */
  datatype InternalUser = InternalUser(username: string, passwordHash: string)

  const DEFAULT_INTERNAL_USER: InternalUser := InternalUser(INTERNAL_USER_USERNAME, INTERNAL_USER_PASSWORD_HASH)
}
