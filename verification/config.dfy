/** Constants of backend/utils/config.py that the modelled logic reads. */
module Config {

  /** SUPPORTED_AUDIO_FORMATS: the extension allow-list, lower-case with the dot. */
  const SupportedAudioFormats: seq<string> := [".wav", ".mp3", ".m4a", ".flac", ".ogg", ".wma", ".aac"]
}
