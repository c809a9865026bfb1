/** The message text of `NUBot.get_message`: a greeting with the
    recipient's name, a blank line, then one fixed-template block per pair
    of (new heading, new link). The pairs come from `zip`, so the body stops
    at the shorter of the two novelty lists. The mail headers, sender
    credentials and the subject line are not part of this model. */
module Composer {
  import opened Text

  /** The fixed sentence after the greeting (Bengali: "this e-mail was sent
      to tell you the latest news of National University today"). */
  const Greeting: String := "আপনাকে জাতীয় বিশ্ববিদ্যালয়ের আজকের সর্বশেষ খবর জানানোর জন্য এই ইমেইলটি পাঠানো হয়েছে।"

  /** The fixed phrase between a heading and its link (Bengali: "click the
      link below for details"). */
  const Instruction: String := "বিস্তারিত জানার জন্য নিচের লিংকে ক্লিক করুন।"

  /** The message as it is handed to the mail transport. */
  datatype Message = Message(to: String, content: String)

  /** `mail['intro']`. */
  function Intro(name: String): (r: String)
    ensures StartsWith(r, "Dear " + name + ",")
  {
    "Dear " + name + ",\n\n" + Greeting
  }

  /** The template rendered for one (heading, link) pair: the heading, the
      instruction, a newline, the link, three newlines. */
  function Block(heading: String, link: String): (r: String)
    ensures StartsWith(r, heading)
    ensures EndsWith(r, link + "\n\n\n")
    ensures |heading| + |link| + 3 < |r|
  {
    heading + Instruction + "\n" + link + "\n\n\n"
  }

  /** Python's `zip`: pairs up the two lists position by position and stops
      at the end of the shorter one. */
  function Zip<A, B>(xs: seq<A>, ys: seq<B>): (r: seq<(A, B)>)
    ensures |r| == if |xs| < |ys| then |xs| else |ys|
    ensures forall i :: 0 <= i < |r| ==> r[i] == (xs[i], ys[i])
  {
    if xs == [] || ys == [] then [] else [(xs[0], ys[0])] + Zip(xs[1..], ys[1..])
  }

  /** `''.join(...)` over the rendered blocks of `pairs`, in order. */
  function Join(pairs: seq<(String, String)>): (r: String)
    ensures pairs == [] <==> r == []
  {
    if pairs == [] then [] else Block(pairs[0].0, pairs[0].1) + Join(pairs[1..])
  }

  /** `mail['body']`: empty exactly when either novelty list is. */
  function Body(headings: seq<String>, links: seq<String>): (r: String)
    ensures r == [] <==> headings == [] || links == []
  {
    Join(Zip(headings, links))
  }

  /** The whole text passed to `set_content`: it opens with the greeting
      `Dear <name>,` and closes with the body. */
  function Content(name: String, headings: seq<String>, links: seq<String>): (r: String)
    ensures StartsWith(r, "Dear " + name + ",")
    ensures EndsWith(r, Body(headings, links))
  {
    Intro(name) + "\n\n" + Body(headings, links)
  }

  /** The body is built pair by pair: the first heading with the first link,
      then the body of the rest; it is empty as soon as either list is. */
  lemma BodyStep(headings: seq<String>, links: seq<String>)
    ensures Body(headings, links) ==
              if headings == [] || links == [] then []
              else Block(headings[0], links[0]) + Body(headings[1..], links[1..])
  {
    if headings != [] && links != [] {
      var z := Zip(headings, links);
      assert z[1..] == Zip(headings[1..], links[1..]);
    }
  }

  /** Nothing beyond the shorter list is rendered: the body of two lists is
      the body of both cut to the shorter length. */
  lemma BodyTruncates(headings: seq<String>, links: seq<String>)
    ensures var m := if |headings| < |links| then |headings| else |links|;
            Body(headings, links) == Body(headings[..m], links[..m])
  {
    var m := if |headings| < |links| then |headings| else |links|;
    assert Zip(headings, links) == Zip(headings[..m], links[..m]);
  }

  /** Three new headings but a single new link give a body of exactly one
      block, the first heading paired with that link. */
  lemma BodyExampleThreeHeadingsOneLink(h1: String, h2: String, h3: String, l1: String)
    ensures Body([h1, h2, h3], [l1]) == Block(h1, l1)
  {
    BodyStep([h1, h2, h3], [l1]);
    assert [h1, h2, h3][1..] == [h2, h3];
    assert [l1][1..] == [];
    BodyStep([h2, h3], []);
  }
}
