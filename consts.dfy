/** Fixed values of the program. */
module Consts {
  import opened Bytes

  /** The single index the older F-Droid code uses. */
  const FdroidIndexUrl: string := "https://f-droid.org/repo/index-v1.jar"

  /** SHA-256 of the F-Droid repository's signing certificate. */
  const FdroidIndexFingerprint: Bytes := [
    67, 35, 141, 81, 44, 30, 94, 178, 214, 86, 159, 74, 58, 251, 245, 82,
    52, 24, 184, 46, 10, 62, 209, 85, 39, 112, 171, 185, 169, 201, 204, 171]
}
