/** The fixed part of the process-wide configuration: the upload size limit
    and the three lists of recognised file suffixes. The API keys and the
    provider switch come from the environment and are passed in where used. */
module Config {

  /** Default upload limit, in mebibytes. */
  const MaxFileSizeMb: int := 10

  const SupportedTextFormats: seq<string> := [".txt", ".md", ".py", ".json", ".csv"]
  const SupportedDocFormats: seq<string> := [".pdf", ".docx"]
  const SupportedImageFormats: seq<string> := [".png", ".jpg", ".jpeg", ".webp"]

  /** Provider used when the environment names none. */
  const DefaultProvider: string := "openai"
}
