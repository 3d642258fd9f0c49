/** The public command line as the external consumer sees it: commands out, untrusted replies in. */
module Cli {
  import opened Options
  import opened Texts
  import opened JsonValues
  import opened JsonLimits
  import opened JsonScan

  /** One finished process. The output streams are decoded from UTF-8; nothing else is known of them. */
  datatype Reply = Reply(code: int, stdout: PlainText, stderr: PlainText)

  /** A command that must return one JSON receipt, or one that must be refused. */
  datatype Command = Json(args: seq<Text>) | Failure(args: seq<Text>)

  function WordLength(t: Text): (n: nat)
    ensures n <= |t| && (t != [] && !White(t[0]) ==> n > 0)
  {
    if t == [] || White(t[0]) then 0 else 1 + WordLength(t[1..])
  }

  /** " ".join(text.split()). */
  function Squeeze(t: Text): (r: Text)
    ensures NoSurrogate(t) ==> NoSurrogate(r)
    decreases |t|
  {
    var u := DropWhite(t);
    if u == [] then [] else
    var n := WordLength(u);
    var rest := DropWhite(u[n..]);
    if rest == [] then u[..n] else u[..n] + [SPACE] + Squeeze(rest)
  }

  function Clip(t: Text): (r: Text)
    ensures NoSurrogate(t) ==> NoSurrogate(r)
  {
    if |t| <= 500 then t else t[..500]
  }

  /**
    What the runner hands back: the receipt of a command that succeeded, the clipped
    message of one that had to fail, or nothing when the runner raises, whatever it raises.
   */
  function Answer(l: Limits, command: Command, reply: Reply): Option<JsonValues.Json> {
    match command
    case Json(_) =>
      if reply.code != 0 then None else
      (match FirstReceipt(l, reply.stdout)
       case Found(fields) => Some(Obj(fields))
       case _ => None)
    case Failure(_) =>
      if reply.code == 0 then None
      else Some(Str(Clip(Squeeze(if reply.stderr != [] then reply.stderr else reply.stdout))))
  }
}
