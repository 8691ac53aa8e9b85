/** "*NAME_<id>=<name>#", the command that gives a device its display name.
    Both firmwares take it apart the same way (RF24-MasterForControlUI and
    RF24-Slave main.cpp): the id text runs from the end of the prefix to
    the first '=', the name from there to the last '#'. */
module NameCommand {
  import opened Text

  const NamePrefix: string := "*NAME_"

  datatype NameFields = NameFields(idText: string, name: string)

  /** None when there is no '=' after position 0 or no '#' after it. */
  function ParseName(command: string): (f: Option<NameFields>)
    ensures f.Some? <==> 0 < IndexOf(command, '=', 0) < LastIndexOf(command, '#')
  {
    var eq := IndexOf(command, '=', 0);
    var hash := LastIndexOf(command, '#');
    if eq > 0 && hash > eq then
      Some(NameFields(Substring(command, |NamePrefix|, eq), Substring(command, eq + 1, hash)))
    else None
  }

  /** The command that names device text `idText` as `name`. */
  function NameCommandText(idText: string, name: string): string {
    NamePrefix + idText + "=" + name + "#"
  }

  /** Taking a name command apart gives back its id text and name,
      whatever the name holds ('=' and '#' included), provided the id text
      has no '='. */
  lemma ParseNameCommand(idText: string, name: string)
    requires '=' !in idText
    ensures ParseName(NameCommandText(idText, name)) == Some(NameFields(idText, name))
  {
    var c := NameCommandText(idText, name);
    var eq := |NamePrefix| + |idText|;
    assert c[eq] == '=';
    forall j | 0 <= j < eq ensures c[j] != '=' {
      if j < |NamePrefix| {
        assert c[j] == NamePrefix[j];
      } else {
        assert c[j] == idText[j - |NamePrefix|];
      }
    }
    assert IndexOf(c, '=', 0) == eq by {
      IndexOfFirst(c, '=', 0, eq);
    }
    assert LastIndexOf(c, '#') == |c| - 1;
    assert c[|NamePrefix|..eq] == idText;
    assert c[eq + 1..|c| - 1] == name;
  }

  lemma IndexOfFirst(s: string, c: char, from: nat, k: nat)
    requires from <= k < |s| && s[k] == c
    requires forall j :: from <= j < k ==> s[j] != c
    ensures IndexOf(s, c, from) == k
  {
  }
}
