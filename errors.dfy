/**
 * The driver's error policy. Every guarded operation of the driver catches
 * one or two Flysystem exception classes; the disk's `throw` setting is the
 * single switch between re-raising a caught exception and turning it into a
 * soft result (`false` or `null`). Exceptions of any other class are never
 * caught.
 */
module Errors {
  import opened Php

  /** The Flysystem exception classes the driver tells apart. */
  datatype Fault =
    | UnableToReadFile
    | UnableToWriteFile
    | UnableToSetVisibility
    | UnableToDeleteFile
    | UnableToCopyFile
    | UnableToMoveFile
    | UnableToRetrieveMetadata
    | UnableToCreateDirectory
    | UnableToDeleteDirectory
    | OtherFilesystemError  // any other FilesystemException: no guard catches it

  /** What can reach the caller of the driver or of the disk manager. */
  datatype Error =
    | Backend(fault: Fault)
    | RuntimeError(message: string)
    | InvalidArgument(message: string)
    | TypeError  // a value of the wrong type for a typed parameter (strict types)
    | PhpError   // a read of an undefined array key, or a call of a value that is not callable

  /** A call either returns normally or raises. */
  datatype Result<+T> = Ok(value: T) | Raised(error: Error)

  /** The classes each guarded operation catches (src/Driver.php). */
  const ReadCaught: set<Fault> := {UnableToReadFile}
  const WriteCaught: set<Fault> := {UnableToWriteFile, UnableToSetVisibility}
  const VisibilityCaught: set<Fault> := {UnableToSetVisibility}
  const DeleteCaught: set<Fault> := {UnableToDeleteFile}
  const CopyCaught: set<Fault> := {UnableToCopyFile}
  const MoveCaught: set<Fault> := {UnableToMoveFile}
  const MetadataCaught: set<Fault> := {UnableToRetrieveMetadata}
  const CreateDirectoryCaught: set<Fault> := {UnableToCreateDirectory, UnableToSetVisibility}
  const DeleteDirectoryCaught: set<Fault> := {UnableToDeleteDirectory}

  /**
   * `throwsExceptions()`: `(bool)($config['throw'] ?? false)`. The policy is
   * off unless the disk configures a truthy `throw`.
   */
  function ThrowsExceptions(config: map<string, Value>): (b: bool)
    ensures "throw" !in config ==> !b
    ensures b <==> Truthy(if "throw" in config then config["throw"] else Null)
  {
    "throw" in config && Truthy(config["throw"])
  }

  /**
   * The outcome of a guarded call whose backend raised `f`: the exception
   * is swallowed, and `soft` returned, exactly when it is of a caught class
   * and `throw` is off; otherwise the original exception reaches the caller.
   */
  function Guard<T>(caught: set<Fault>, throws: bool, f: Fault, soft: T): (r: Result<T>)
    ensures r.Ok? <==> f in caught && !throws
    ensures r.Ok? ==> r.value == soft
    ensures r.Raised? ==> r.error == Backend(f)
  {
    if f in caught && !throws then Ok(soft) else Raised(Backend(f))
  }

  /**
   * The outcome of a guarded operation that answers `true` on success: true
   * when the backend did not fail, false when it failed with a caught class
   * and `throw` is off, and the backend's exception otherwise.
   */
  function Attempt(caught: set<Fault>, throws: bool, fault: Option<Fault>): (r: Result<bool>)
    ensures r == Ok(true) <==> fault.None?
    ensures r == Ok(false) <==> fault.Some? && fault.value in caught && !throws
    ensures r.Raised? ==> fault.Some? && r.error == Backend(fault.value)
  {
    match fault
    case None => Ok(true)
    case Some(f) => Guard(caught, throws, f, false)
  }

  /**
   * The exception a backend call raises: the one the caller's oracle names,
   * or else `implied` when the call's target is not there.
   */
  function BackendFault(fault: Option<Fault>, present: bool, implied: Fault): (f: Option<Fault>)
    ensures f.None? <==> fault.None? && present
    ensures f.Some? && fault.None? ==> f.value == implied
    ensures fault.Some? ==> f == fault
  {
    if fault.Some? then fault else if present then None else Some(implied)
  }

  /** With `throw` on, no guard changes what the backend raised. */
  lemma ThrowOnReraisesOriginal<T>(caught: set<Fault>, f: Fault, soft: T)
    ensures Guard(caught, true, f, soft) == Raised(Backend(f))
  {
  }

  /** `League\Flysystem\Visibility::PUBLIC` and `::PRIVATE`. */
  const Public := "public"
  const Private := "private"

  /**
   * `getVisibility`'s collapse of the backend's marker: `public` exactly when
   * the backend reports `Visibility::PUBLIC`, `private` for every other value.
   */
  function VisibilityName(native: string): (r: string)
    ensures r == Public || r == Private
    ensures r == Public <==> native == Public
  {
    if native == Public then Public else Private
  }

  /**
   * `put`'s normalisation of its options argument: a string is a visibility,
   * `(array)` turns null into `[]`, keeps an array and wraps any other scalar
   * as `[0 => value]`.
   */
  function NormaliseOptions(options: Value): (m: map<string, Value>)
    ensures options.Str? ==> m == map["visibility" := options]
    ensures options.Arr? ==> m == options.entries
    ensures options.Null? ==> m == map[]
    ensures (options.Bool? || options.Int?) ==> m == map["0" := options]
  {
    match options
    case Str(_) => map["visibility" := options]
    case Arr(entries) => entries
    case Null => map[]
    case _ => map["0" := options]
  }
}
