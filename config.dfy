/** The application settings the core reads (config.py). */
module Config {
  /** Standard frame size; also the width a stock rendition must reach to count as HD. */
  const VIDEO_WIDTH: int := 1280
  const VIDEO_HEIGHT: int := 720

  /** Default number of results of the stock and local searches. */
  const PEXELS_MAX_RESULTS: int := 3
  const LOCAL_MAX_RESULTS: int := 3

  /** Longest clip, in seconds. */
  const MAX_CLIP_DURATION: real := 5.0

  const MAX_KEYWORDS_PER_SENTENCE: nat := 5

  /** The API key configured when the environment provides none. */
  const PLACEHOLDER_API_KEY: string := "your-pexels-api-key-here"
}
