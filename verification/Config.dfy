/** The Config object of src/config. */
module Config {
  import opened Text
  import opened Framing
  import opened ConfigModel

  lemma NoFileLines()
    ensures FileLines("") == []
  {
  }

  /** std::getline on what is left of a file. */
  method GetLine(rest: string) returns (line: string, rest': string)
    requires rest != ""
    ensures FileLines(rest) == [line] + FileLines(rest') && |rest'| < |rest|
  {
    NextFileLine(rest);
    var k := Find(rest, '\n');
    line := rest[..k];
    rest' := if k < |rest| then rest[k + 1..] else "";
  }

  /** The scanning loop of parse_line: the first '=', or 0. */
  method FindEqual(line: string) returns (equal: nat)
    ensures equal == if '=' in line then Find(line, '=') else 0
  {
    equal := 0;
    for i := 0 to |line|
      invariant equal == 0
      invariant '=' !in line[..i]
    {
      if line[i] == '=' {
        FindAt(line, '=', i);
        return i;
      }
      assert line[..i + 1] == line[..i] + [line[i]];
    }
    assert line[..|line|] == line;
  }

  class Config {
    var data: Bindings

    constructor ()
      ensures data == map[]
    {
      data := map[];
    }

    method ParseLine(line: string)
      modifies this
      ensures data == ConfigModel.ParseLine(old(data), line)
    {
      if line == "" {
        return;
      }
      var hash := Find(line, '#');
      if hash == 0 {
        return;
      }
      var equal := FindEqual(line);
      if equal == 0 || equal == |line| - 1 {
        return;
      }
      if equal > hash {
        return;
      }
      var key := line[..equal];
      var value := line[equal + 1..];
      HashInValue(line, equal);
      if hash != |line| {
        value := value[..Find(value, '#')];
      }
      key := TrimString(key);
      value := TrimString(value);
      data := data[key := value];
    }

    /** isOpen: whether the file could be opened. */
    method Load(isOpen: bool, text: string) returns (ok: bool)
      modifies this
      ensures ok == isOpen
      ensures data == if isOpen then ConfigModel.Load(old(data), text) else old(data)
    {
      if !isOpen {
        return false;
      }
      hide ConfigModel.ParseLine, FileLines, ParseLines;
      var rest := text;
      while rest != ""
        invariant ParseLines(old(data), FileLines(text)) == ParseLines(data, FileLines(rest))
        decreases |rest|
      {
        var line, rest' := GetLine(rest);
        ParseNextLine(data, line, FileLines(rest'));
        ParseLine(line);
        rest := rest';
      }
      ParseNextLine(data, "", []);
      NoFileLines();
      return true;
    }

    method Get(key: string, defaultValue: string) returns (value: string)
      ensures value == if key in data then data[key] else defaultValue
    {
      if key in data {
        return data[key];
      }
      return defaultValue;
    }
  }

  /** How main reads a setting: a fresh Config, load, get. From a file that writes m it gets m's value for the key,
      and the default for a key without one or when the file cannot be opened. */
  method ReadSetting(isOpen: bool, text: string, key: string, defaultValue: string,
                     ghost ls: seq<FileLine>, ghost m: Bindings)
    returns (value: string)
    requires Writes(ls, m) && text == Unlines(PrintAll(ls))
    ensures value == if isOpen && key in m then m[key] else defaultValue
  {
    ConfigRoundTrip(ls, m);
    var config := new Config();
    var ok := config.Load(isOpen, text);
    value := config.Get(key, defaultValue);
  }
}
