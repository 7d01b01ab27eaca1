/**
 * Saving the script: the file is created (or truncated) and the script is
 * written to it rune by rune, stopping at the first write that fails.
 */
module ScriptWriter {
  import opened Wrappers

  /** What creating or writing the script file can fail with. */
  datatype IoError = CreateFailed | WriteFailed

  /**
   * How many runes of a `length`-rune text reach a file that fails every
   * write once it holds `capacity` runes (`None`: no write ever fails).
   */
  function Accepted(capacity: Option<nat>, length: nat): (n: nat)
    ensures n <= length
    ensures n == length <==> capacity.None? || length <= capacity.value
    ensures n < length ==> n == capacity.value
  {
    match capacity
    case None => length
    case Some(c) => if length <= c then length else c
  }

  /**
   * The file at the script's path, seen as the runes it holds. Whether it
   * can be created and how many runes it takes before writes fail are fixed
   * by the environment.
   */
  class ScriptFile {
    var contents: seq<char>
    const creatable: bool
    const capacity: Option<nat>

    constructor (contents: seq<char>, creatable: bool, capacity: Option<nat>)
      ensures this.contents == contents && this.creatable == creatable && this.capacity == capacity
    {
      this.contents := contents;
      this.creatable := creatable;
      this.capacity := capacity;
    }

    /** A write succeeds while the file holds fewer runes than its capacity. */
    predicate HasRoom()
      reads this
    {
      capacity.None? || |contents| < capacity.value
    }

    /** `os.Create`: truncates the file to empty, or fails and leaves it as it was. */
    method Create() returns (err: Option<IoError>)
      modifies this
      ensures creatable ==> err == None && contents == []
      ensures !creatable ==> err == Some(CreateFailed) && contents == old(contents)
    {
      if creatable {
        contents := [];
        err := None;
      } else {
        err := Some(CreateFailed);
      }
    }

    /** `WriteRune`: appends one rune, or fails and leaves the file as it was. */
    method WriteRune(c: char) returns (err: Option<IoError>)
      modifies this
      ensures old(HasRoom()) ==> err == None && contents == old(contents) + [c]
      ensures !old(HasRoom()) ==> err == Some(WriteFailed) && contents == old(contents)
    {
      if HasRoom() {
        contents := contents + [c];
        err := None;
      } else {
        err := Some(WriteFailed);
      }
    }
  }

  /**
   * `saveScript`: a file that cannot be created is reported and left alone;
   * otherwise the file ends up holding the longest prefix of `content` it
   * accepts, and the result is an error exactly when that is not all of it.
   */
  method SaveScript(file: ScriptFile, content: string) returns (err: Option<IoError>)
    modifies file
    ensures !file.creatable ==> err == Some(CreateFailed) && file.contents == old(file.contents)
    ensures file.creatable ==> file.contents == content[..Accepted(file.capacity, |content|)]
    ensures file.creatable ==> (err == None <==> Accepted(file.capacity, |content|) == |content|)
    ensures file.creatable && err != None ==> err == Some(WriteFailed)
  {
    err := file.Create();
    if err != None {
      return;
    }
    var i := 0;
    while i < |content|
      invariant 0 <= i <= |content|
      invariant file.contents == content[..i]
      invariant file.capacity.None? || i <= file.capacity.value
    {
      var written := file.WriteRune(content[i]);
      if written != None {
        return written;
      }
      assert content[..i + 1] == content[..i] + [content[i]];
      i := i + 1;
    }
    assert content[..i] == content;
    return None;
  }

  /** Saving to a file that takes everything and reading it back gives the script unchanged. */
  method SaveAndReadBack(content: string) returns (err: Option<IoError>, readBack: string)
    ensures err == None && readBack == content
  {
    var file := new ScriptFile("stale contents", true, None);
    err := SaveScript(file, content);
    readBack := file.contents;
  }

  /** A file that is full after `capacity` runes keeps exactly that prefix, and the save reports the failure. */
  method SaveToFullFile(content: string, capacity: nat) returns (err: Option<IoError>, readBack: string)
    ensures capacity < |content| ==> err == Some(WriteFailed) && readBack == content[..capacity]
    ensures |content| <= capacity ==> err == None && readBack == content
  {
    var file := new ScriptFile([], true, Some(capacity));
    err := SaveScript(file, content);
    readBack := file.contents;
  }

  /** A file that cannot be created is reported and keeps what it held. */
  method SaveToUncreatableFile(content: string, previous: string) returns (err: Option<IoError>, readBack: string)
    ensures err == Some(CreateFailed) && readBack == previous
  {
    var file := new ScriptFile(previous, false, None);
    err := SaveScript(file, content);
    readBack := file.contents;
  }
}
