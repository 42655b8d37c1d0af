/** The exceptions the core raises, with the messages it raises them with. */
module Errors {

  datatype Error =
    | DottyError(message: string)                  // Dotty::Error
    | InvalidRepositoryNameError(message: string)  // Dotty::InvalidRepositoryNameError
    | UndefinedErrorHelper(message: string)        // a call of `error` where no `error` method is defined (NoMethodError)

  const InvalidNameMessage: string :=
    "Repository name can only contain letters, numbers and the following characters: .-_"

  const NotChangingTargetMessage: string :=
    "Not changing current target:  no repository of that name exists"

  const AlreadyExistsMessage: string := "There is already a repository with that name"

  function ProfileMissingMessage(name: string): string {
    "Profile '" + name + "' does not exist"
  }

  function DirtyRepositoryMessage(name: string): string {
    "Repository '" + name + "' is not in a clean state - cannot commit updated submodules"
  }

  function NothingToImportMessage(location: string): string {
    "Didn't find any repositories at '" + location + "'"
  }
}
