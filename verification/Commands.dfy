/** Command parsing, server.cpp:19-24, 50-61 and 234-241: a command is scanned
    once against an ordered table of keywords. */
module Commands {
  import opened Common

  /** server.cpp:50-61: the keyword at place i of the table ... */
  function Word(i: nat): string
    requires i < 10
  {
    if i == 0 then "set" else if i == 1 then "get" else if i == 2 then "del" else if i == 3 then "sync"
    else if i == 4 then "reg" else if i == 5 then "login" else if i == 6 then "wait"
    else if i == 7 then "process" else if i == 8 then "var" else "subprocess"
  }

  /** ... and its number: verbs count from 1, objects again from 1. */
  function Id(i: nat): nat
    requires i < 10
    ensures 1 <= Id(i) <= 7
  {
    if i < 7 then i + 1 else i - 6
  }

  /** server.cpp:19-24. */
  function GetPrefix(str: string, length: nat): string {
    if length >= |str| then str else str[..length]
  }

  /** The keyword and the character behind it are cut off. */
  function Cut(command: string, word: string): string {
    command[Min(|command|, |word| + 1)..]
  }

  /** The scan of keywords i .. n - 1: operation number and what is left. */
  function Scan(i: nat, n: nat, command: string, id: nat): (nat, string)
    requires i <= n <= 10
    decreases n - i
  {
    if i == n then (id, command)
    else if GetPrefix(command, |Word(i)|) == Word(i)
    then Scan(i + 1, n, Cut(command, Word(i)), id * 10 + Id(i))
    else Scan(i + 1, n, command, id)
  }

  method ParseCommand(input: string) returns (id: nat, command: string)
    ensures (id, command) == Scan(0, 10, input, 0)
  {
    hide Word, Cut;
    id, command := 0, input;
    for i := 0 to 10
      invariant Scan(i, 10, command, id) == Scan(0, 10, input, 0)
    {
      if GetPrefix(command, |Word(i)|) == Word(i) {
        id := id * 10 + Id(i);
        command := Cut(command, Word(i));
      }
    }
  }

  lemma PrefixMeansStart(command: string, word: string)
    ensures GetPrefix(command, |word|) == word <==> word <= command
  {
  }

  lemma {:induction false} ScanSplit(i: nat, k: nat, n: nat, command: string, id: nat)
    requires i <= k <= n <= 10
    ensures var (mid, rest) := Scan(i, k, command, id); Scan(i, n, command, id) == Scan(k, n, rest, mid)
    decreases k - i
  {
    if i == k {
    } else if GetPrefix(command, |Word(i)|) == Word(i) {
      ScanSplit(i + 1, k, n, Cut(command, Word(i)), id * 10 + Id(i));
    } else {
      ScanSplit(i + 1, k, n, command, id);
    }
  }

  /** The scan leaves a command alone exactly when no keyword begins it. */
  lemma {:induction false} ScanUntouchedIff(i: nat, n: nat, command: string, id: nat)
    requires i <= n <= 10 && id > 0
    ensures Scan(i, n, command, id) == (id, command) <==> forall k :: i <= k < n ==> !(Word(k) <= command)
    ensures Scan(i, n, command, id).0 >= id
    decreases n - i
  {
    hide Word, Cut;
    if i >= n {
    } else {
      PrefixMeansStart(command, Word(i));
      if Word(i) <= command {
        ScanUntouchedIff(i + 1, n, Cut(command, Word(i)), id * 10 + Id(i));
      } else {
        ScanUntouchedIff(i + 1, n, command, id);
      }
    }
  }

  lemma {:induction false} ScanPasses(i: nat, n: nat, command: string, id: nat)
    requires i <= n <= 10
    requires forall k :: i <= k < n ==> !(Word(k) <= command)
    ensures Scan(i, n, command, id) == (id, command)
    decreases n - i
  {
    if i >= n {
    } else {
      PrefixMeansStart(command, Word(i));
      ScanPasses(i + 1, n, command, id);
    }
  }

  /** No two keywords share their first two characters. */
  lemma HeadsDiffer(i: nat, j: nat)
    requires i < 10 && j < 10 && i != j
    ensures |Word(i)| >= 2 && |Word(j)| >= 2
    ensures Word(i)[0] != Word(j)[0] || Word(i)[1] != Word(j)[1]
  {
  }

  /** The scan over keywords i .. n - 1 of a text that begins with keyword k of
      theirs: it is cut off and nothing before it matches. */
  lemma ScanToWord(i: nat, k: nat, tail: string, id: nat)
    requires i <= k < 10
    ensures Scan(i, k + 1, Word(k) + " " + tail, id) == (id * 10 + Id(k), tail)
  {
    var text := Word(k) + " " + tail;
    forall j | i <= j < k
      ensures !(Word(j) <= text)
    {
      HeadsDiffer(j, k);
    }
    ScanPasses(i, k, text, id);
    ScanSplit(i, k, k + 1, text, id);
    PrefixMeansStart(text, Word(k));
    assert Cut(text, Word(k)) == tail;
  }

  predicate StartsWithLaterObject(arg: string, obj: nat)
    requires obj < 10
  {
    exists k :: obj < k < 10 && Word(k) <= arg
  }

  /** Parsing "verb object arg" gives ten times the verb's number plus the
      object's, and the argument untouched, if and only if the argument does
      not itself start with an object that stands later in the table. */
  lemma ParseInvertsPrintIff(verb: nat, obj: nat, arg: string)
    requires verb < 7 <= obj < 10
    ensures Scan(0, 10, Word(verb) + " " + (Word(obj) + " " + arg), 0) == (10 * Id(verb) + Id(obj), arg)
      <==> !StartsWithLaterObject(arg, obj)
  {
    hide Word, Scan;
    var text := Word(verb) + " " + (Word(obj) + " " + arg);
    ScanToWord(0, verb, Word(obj) + " " + arg, 0);
    ScanSplit(0, verb + 1, 10, text, 0);
    ScanToWord(verb + 1, obj, arg, Id(verb));
    ScanSplit(verb + 1, obj + 1, 10, Word(obj) + " " + arg, Id(verb));
    ScanUntouchedIff(obj + 1, 10, arg, 10 * Id(verb) + Id(obj));
  }

  /** The text of a command is its words with a space behind each. */
  lemma Numbered(verb: nat, obj: nat, text: string, arg: string)
    requires verb < 7 <= obj < 10 && text == Word(verb) + " " + Word(obj) + " "
    ensures Scan(0, 10, text + arg, 0) == (10 * Id(verb) + Id(obj), arg)
      <==> !StartsWithLaterObject(arg, obj)
  {
    hide Scan, Word;
    ParseInvertsPrintIff(verb, obj, arg);
    assert text + arg == Word(verb) + " " + (Word(obj) + " " + arg);
  }

  lemma Later(arg: string)
    ensures StartsWithLaterObject(arg, 7) <==> "var" <= arg || "subprocess" <= arg
    ensures StartsWithLaterObject(arg, 8) <==> "subprocess" <= arg
    ensures !StartsWithLaterObject(arg, 9)
  {
    assert Word(8) == "var" && Word(9) == "subprocess";
  }

  /** The operation numbers of server.cpp:277-642, each with the text that leads to
      it: commands on processes, */
  lemma ProcessCommands(arg: string)
    ensures Scan(0, 10, "set process " + arg, 0) == (11, arg) <==> !("var" <= arg) && !("subprocess" <= arg)
    ensures Scan(0, 10, "get process " + arg, 0) == (21, arg) <==> !("var" <= arg) && !("subprocess" <= arg)
    ensures Scan(0, 10, "del process " + arg, 0) == (31, arg) <==> !("var" <= arg) && !("subprocess" <= arg)
    ensures Scan(0, 10, "sync process " + arg, 0) == (41, arg) <==> !("var" <= arg) && !("subprocess" <= arg)
    ensures Scan(0, 10, "reg process " + arg, 0) == (51, arg) <==> !("var" <= arg) && !("subprocess" <= arg)
    ensures Scan(0, 10, "wait process " + arg, 0) == (71, arg) <==> !("var" <= arg) && !("subprocess" <= arg)
  {
    hide Scan, StartsWithLaterObject;
    Numbered(0, 7, "set process ", arg);
    Numbered(1, 7, "get process ", arg);
    Numbered(2, 7, "del process ", arg);
    Numbered(3, 7, "sync process ", arg);
    Numbered(4, 7, "reg process ", arg);
    Numbered(6, 7, "wait process ", arg);
    Later(arg);
  }

  /** ... on variables, */
  lemma VarCommands(arg: string)
    ensures Scan(0, 10, "set var " + arg, 0) == (12, arg) <==> !("subprocess" <= arg)
    ensures Scan(0, 10, "get var " + arg, 0) == (22, arg) <==> !("subprocess" <= arg)
    ensures Scan(0, 10, "del var " + arg, 0) == (32, arg) <==> !("subprocess" <= arg)
    ensures Scan(0, 10, "sync var " + arg, 0) == (42, arg) <==> !("subprocess" <= arg)
    ensures Scan(0, 10, "wait var " + arg, 0) == (72, arg) <==> !("subprocess" <= arg)
  {
    hide Scan, StartsWithLaterObject;
    Numbered(0, 8, "set var ", arg);
    Numbered(1, 8, "get var ", arg);
    Numbered(2, 8, "del var ", arg);
    Numbered(3, 8, "sync var ", arg);
    Numbered(6, 8, "wait var ", arg);
    Later(arg);
  }

  /** ... and on subprocesses. */
  lemma SubprocessCommands(arg: string)
    ensures Scan(0, 10, "reg subprocess " + arg, 0) == (53, arg)
    ensures Scan(0, 10, "login subprocess " + arg, 0) == (63, arg)
  {
    hide Scan, StartsWithLaterObject;
    Numbered(4, 9, "reg subprocess ", arg);
    Numbered(5, 9, "login subprocess ", arg);
    Later(arg);
  }

  /** A process named "variable" cannot be registered: its name begins with
      the later keyword "var", so "reg process variable" is not operation 51. */
  lemma NameLostToKeyword()
    ensures Word(4) == "reg" && Word(7) == "process"
    ensures Scan(0, 10, Word(4) + " " + (Word(7) + " " + "variable"), 0) != (51, "variable")
  {
    hide Scan;
    assert Word(8) <= "variable";
    assert StartsWithLaterObject("variable", 7);
    ParseInvertsPrintIff(4, 7, "variable");
  }
}
