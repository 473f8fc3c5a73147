/** The failures the commands report: `AppError` of src/error.rs and the
    configuration errors of src/config.rs. The underlying `io::Error` and
    TOML error values are not carried; the paths and names are. */
module Errors {
  import opened Paths

  datatype ConfigError =
    | DirectoryCreationError(path: Path)
    | NoConfigDirectory
    | ManifestReadError(path: Path)
    | ManifestWriteError(path: Path)
    | ManifestParseError(path: Path)
    | ManifestSerializeError

  datatype AppError =
    | Config(cause: ConfigError)
    | Io
    | ReadDir(sourcePath: Path)
    | FileCopy(from: Path, to: Path)
    | FileRemove(path: Path)
    | SourceFileDoesNotExist(source: Path)
    | SourcePathIsNotAFile(source: Path)
    | TemplateNameInvalid(name: string, reason: string)
    | TemplateAlreadyExists(name: string)
    | TemplatesDirNotFound(dir: Path)
    | TemplateNotFound(name: string)
    | TemplateFileMissing(name: string, path: Path)
    | DestinationFileExists(dest: Path)
    | DestinationIsDirectory(action: string, dest: Path)
    | ConfirmationNeededInQuietMode(action: string, templateName: string)
    | EditorFailed(path: Path)
    | Unexpected(message: string)
}
