/** A client's line: the verb it opens with and the address it names, against what they mean. */
module Commands {
  import opened Wrappers
  import opened Texts

  function AddressOf(command: string): string {
    match Bracketed(command)
    case Some(address) => address
    case None =>
      var colon := Find(command, ':');
      if colon.Some? then Trim(command[colon.value + 1..]) else ""
  }

  function Verb(text: string): string {
    AsciiUpper(FirstWord(text))
  }

  // ..... The address .....

  /** Some `<` has a `>` behind it. */
  predicate HasBrackets(s: string) {
    exists i, j :: 0 <= i < j < |s| && s[i] == '<' && s[j] == '>'
  }

  /** The first `<` is at `i`, and the last `>` behind it at `j`. */
  predicate BracketsAt(s: string, i: nat, j: nat) {
    i < j < |s| && s[i] == '<' && s[j] == '>' && '<' !in s[..i] && '>' !in s[j + 1..]
  }

  ghost predicate IsBracketed(s: string, inner: string) {
    exists i: nat, j: nat :: BracketsAt(s, i, j) && inner == s[i + 1..j]
  }

  predicate ColonAt(s: string, i: nat) {
    i < |s| && s[i] == ':' && ':' !in s[..i]
  }

  /** `t` is what follows the first colon, without the whitespace around it. */
  ghost predicate FollowsColon(s: string, t: string) {
    exists i: nat :: ColonAt(s, i) && IsTrimOf(t, s[i + 1..])
  }

  /** The address a line names, said of its text: what its outermost angle brackets hold, else what
      follows its first colon, else nothing. */
  ghost predicate Names(command: string, address: string) {
    if HasBrackets(command) then IsBracketed(command, address)
    else if ':' in command then FollowsColon(command, address)
    else address == ""
  }

  lemma BracketedIs(s: string)
    ensures Bracketed(s).Some? <==> HasBrackets(s)
    ensures Bracketed(s).Some? ==> IsBracketed(s, Bracketed(s).value)
  {
    FindIs(s, '<');
    FindLastIs(s, '>');
    if Bracketed(s).Some? {
      assert BracketsAt(s, Find(s, '<').value, FindLast(s, '>').value);
    }
  }

  lemma BracketedUnique(s: string, a: string, b: string)
    requires IsBracketed(s, a) && IsBracketed(s, b)
    ensures a == b
  {
    var i: nat, j: nat :| BracketsAt(s, i, j) && a == s[i + 1..j];
    var i': nat, j': nat :| BracketsAt(s, i', j') && b == s[i' + 1..j'];
    FirstAt(s, '<', i, i');
    LastAt(s, '>', j, j');
  }

  lemma FirstAt(s: string, c: char, i: nat, j: nat)
    requires i < |s| && j < |s| && s[i] == s[j] == c && c !in s[..i] && c !in s[..j]
    ensures i == j
  {
    assert forall k :: 0 <= k < j ==> s[..j][k] != c;
    assert forall k :: 0 <= k < i ==> s[..i][k] != c;
  }

  lemma NotBehind(s: string, c: char, i: nat)
    requires i <= |s| && c !in s[i..]
    ensures forall k :: i <= k < |s| ==> s[k] != c
  {
    forall k | i <= k < |s|
      ensures s[k] != c
    {
      assert s[k] == s[i..][k - i];
    }
  }

  lemma LastAt(s: string, c: char, i: nat, j: nat)
    requires i < |s| && j < |s| && s[i] == s[j] == c && c !in s[i + 1..] && c !in s[j + 1..]
    ensures i == j
  {
    NotBehind(s, c, i + 1);
    NotBehind(s, c, j + 1);
  }

  lemma ColonUnique(s: string, a: string, b: string)
    requires FollowsColon(s, a) && FollowsColon(s, b)
    ensures a == b
  {
    hide IsTrimOf, Trim;
    var i: nat :| ColonAt(s, i) && IsTrimOf(a, s[i + 1..]);
    var i': nat :| ColonAt(s, i') && IsTrimOf(b, s[i' + 1..]);
    FirstAt(s, ':', i, i');
    TrimIs(s[i + 1..], a);
    TrimIs(s[i + 1..], b);
  }

  lemma AddressIsNamed(command: string)
    ensures Names(command, AddressOf(command))
  {
    hide Trim, IsTrimOf, Bracketed, IsBracketed, HasBrackets;
    BracketedIs(command);
    FindIs(command, ':');
    if Bracketed(command).None? && ':' in command {
      var i := Find(command, ':').value;
      assert ColonAt(command, i);
      TrimIs(command[i + 1..], Trim(command[i + 1..]));
    }
  }

  /** Every line names exactly one address, and it is the one that is extracted. */
  lemma AddressOfIs(command: string, address: string)
    ensures Names(command, address) <==> address == AddressOf(command)
  {
    hide AddressOf, IsBracketed, FollowsColon;
    AddressIsNamed(command);
    var a := AddressOf(command);
    if Names(command, address) {
      if HasBrackets(command) {
        BracketedUnique(command, a, address);
      } else if ':' in command {
        ColonUnique(command, a, address);
      }
    }
  }

  /** An address in angle brackets, with no bracket opened before it, is the one named exactly when no
      bracket is closed behind it; otherwise what is named runs on to the last one. */
  lemma AddressInBrackets(head: string, address: string, tail: string)
    requires '<' !in head
    ensures AddressOf(head + "<" + address + ">" + tail) == address <==> '>' !in tail
  {
    hide AddressOf;
    var s := head + "<" + address + ">" + tail;
    var i, j := |head|, |head| + 1 + |address|;
    assert s[i] == '<' && s[j] == '>' && s[..i] == head && s[j + 1..] == tail;
    FindLastIs(s, '>');
    var last := FindLast(s, '>').value;
    assert BracketsAt(s, i, last) && s[i + 1..j] == address by {
      assert last >= j by { assert forall k :: last < k < |s| ==> s[k] == s[last + 1..][k - last - 1]; }
    }
    AddressOfIs(s, s[i + 1..last]);
    if '>' in tail {
      var k :| 0 <= k < |tail| && tail[k] == '>';
      assert s[j + 1 + k] == '>';
      assert last > j by { assert forall n :: last < n < |s| ==> s[n] == s[last + 1..][n - last - 1]; }
    } else {
      LastAt(s, '>', j, last);
    }
  }

  /** A parameter with brackets of its own is taken for part of the address. */
  lemma ParameterTaken()
    ensures AddressOf("MAIL FROM:<a@b> AUTH=<>") == "a@b> AUTH=<"
  {
    hide AddressOf;
    var s := "MAIL FROM:<a@b> AUTH=<>";
    assert s[10] == '<' && s[22] == '>' && s[..10] == "MAIL FROM:" && s[23..] == "";
    assert BracketsAt(s, 10, 22) && s[11..22] == "a@b> AUTH=<";
    AddressOfIs(s, "a@b> AUTH=<");
  }

  /** The line a recipient is replayed in names that recipient again, whatever the recipient is. */
  lemma ReplayedNamesSame(address: string)
    ensures AddressOf("RCPT TO:<" + address + ">") == address
    ensures AddressOf("MAIL FROM:<" + address + ">") == address
  {
    hide AddressOf;
    AddressInBrackets("RCPT TO:", address, "");
    AddressInBrackets("MAIL FROM:", address, "");
    assert "RCPT TO:<" + address + ">" == "RCPT TO:" + "<" + address + ">" + "";
    assert "MAIL FROM:<" + address + ">" == "MAIL FROM:" + "<" + address + ">" + "";
  }

  /** The address a line names. */
  ghost function Named(command: string): (address: string)
    ensures Names(command, address)
  {
    AddressIsNamed(command);
    var a :| Names(command, a); a
  }

  lemma NamedIsAddress(command: string)
    ensures Named(command) == AddressOf(command)
  {
    hide AddressOf, Names;
    AddressOfIs(command, Named(command));
  }

  // ..... The verb .....

  /** The letter a lower-case one stands for in a verb. */
  predicate Capital(c: char, upper: char) {
    if 97 <= c as int <= 122 then upper as int == c as int - 32 else upper == c
  }

  /** `verb` is the first word of the text, in capitals; the empty one when there is no word. */
  ghost predicate Says(text: string, verb: string) {
    exists w: string ::
      IsFirstWord(w, text) && |verb| == |w| && forall k :: 0 <= k < |w| ==> Capital(w[k], verb[k])
  }

  /** A line opens with a verb exactly when the dispatch takes it so. */
  lemma VerbIs(text: string, verb: string)
    ensures Says(text, verb) <==> verb == Verb(text)
  {
    hide FirstWord, IsFirstWord;
    var w := FirstWord(text);
    FirstWordIs(text, w);
    assert Verb(text) == AsciiUpper(w);
    if Says(text, verb) {
      var w' :| IsFirstWord(w', text) && |verb| == |w'| && forall k :: 0 <= k < |w'| ==> Capital(w'[k], verb[k]);
      FirstWordIs(text, w');
      assert forall k :: 0 <= k < |w| ==> Capital(w[k], verb[k]);
      assert verb == AsciiUpper(w);
    }
  }
}
