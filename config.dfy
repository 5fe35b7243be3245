/** The configuration constants of the backend (`backend/config.py`). */
module Config {

  /** The content types an upload may declare. */
  const ALLOWED_AUDIO_FORMATS: set<string> :=
    {"audio/wav", "audio/mpeg", "audio/mp3", "audio/m4a", "audio/ogg", "audio/webm", "audio/mp4"}

  /** Largest accepted upload, in bytes (10 MiB). */
  const MAX_FILE_SIZE: nat := 10 * 1024 * 1024

  /** Default age, in hours, after which an uploaded file is stale. */
  const TEMP_FILE_CLEANUP_HOURS: int := 24
}
