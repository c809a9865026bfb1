/** The `NUBot` class: one run extracts the latest notices, filters out
    those recorded by the previous run, resolves the recipients and, when
    both a new heading and a new link were found, hands one message per
    recipient to the mail transport; it records the outcome in `bot_info`
    and can produce the full extraction as the next run's baseline.

    The page fetch and HTML parsing, the recipient-sheet request, the SMTP
    session, the pause between sends and the clock are outside the model:
    the selected anchors and the sheet's rows are parameters, and a send is
    an event appended to `outbox`. */
module Bot {
  import opened Text
  import opened Novelty
  import opened Extraction
  import opened Recipients
  import opened Composer

  /** The key `init` writes in `bot_info`, and the two values it writes. */
  const ResultKey: String := "execution_result"
  const NewNewsFound: String := "New news found"
  const NoNewNewsFound: String := "No new news found."

  /** The attributes assigned in the class body: Python keeps one object per
      name for the class, so every instance appends to the same lists and
      writes to the same dictionary, and repeated calls accumulate. */
  class ClassAttrs {
    var newHeadings: seq<String>
    var newLinks: seq<String>
    var userInfo: seq<User>
    var botInfo: map<String, String>

    constructor ()
      ensures newHeadings == [] && newLinks == [] && userInfo == [] && botInfo == map[]
    {
      newHeadings, newLinks, userInfo, botInfo := [], [], [], map[];
    }
  }

  /** What `add_new_news` saves for the next run to load as its
      `prev_headings` and `prev_links`. */
  datatype Baseline = Baseline(prevHeadings: seq<String>, prevLinks: seq<String>)

  /** `self.news_headings and self.news_links`: mail goes out only when both
      novelty lists are non-empty. */
  predicate HasNews(headings: seq<String>, links: seq<String>)
    ensures HasNews(headings, links) <==> Body(headings, links) != []
  {
    headings != [] && links != []
  }

  /** The messages the send loop produces for `users`, in order. */
  function Letters(users: seq<User>, headings: seq<String>, links: seq<String>): (r: seq<Message>)
    ensures |r| == |users|
  {
    if users == [] then []
    else
      var u := users[|users| - 1];
      Letters(users[..|users| - 1], headings, links) + [Message(u.email, Content(u.name, headings, links))]
  }

  /** One more user appends that user's message. */
  lemma LettersSnoc(users: seq<User>, u: User, headings: seq<String>, links: seq<String>)
    ensures Letters(users + [u], headings, links)
            == Letters(users, headings, links) + [Message(u.email, Content(u.name, headings, links))]
  {
    assert (users + [u])[..|users|] == users;
  }

  /** The send loop's step: the messages for one more user of the list. */
  lemma LettersPrefixStep(users: seq<User>, i: nat, headings: seq<String>, links: seq<String>)
    requires i < |users|
    ensures Letters(users[..i + 1], headings, links)
            == Letters(users[..i], headings, links) + [Message(users[i].email, Content(users[i].name, headings, links))]
  {
    assert users[..i + 1] == users[..i] + [users[i]];
    LettersSnoc(users[..i], users[i], headings, links);
  }

  /** Appending one element after a concatenation regroups. */
  lemma SnocRegroup<T>(a: seq<T>, b: seq<T>, x: T)
    ensures (a + b) + [x] == a + (b + [x])
  {
  }

  /** Message `i` goes to user `i`, greets that user by name and carries the
      body of the novelty lists. */
  lemma {:induction false} LettersAt(users: seq<User>, headings: seq<String>, links: seq<String>)
    ensures forall i :: 0 <= i < |users| ==>
              Letters(users, headings, links)[i].to == users[i].email &&
              StartsWith(Letters(users, headings, links)[i].content, "Dear " + users[i].name + ",") &&
              EndsWith(Letters(users, headings, links)[i].content, Body(headings, links))
  {
    if users != [] {
      var n := |users| - 1;
      LettersAt(users[..n], headings, links);
      assert users == users[..n] + [users[n]];
      LettersSnoc(users[..n], users[n], headings, links);
      assert forall i :: 0 <= i < n ==> users[..n][i] == users[i];
    }
  }

  class NUBot {
    /** The class-level attributes this instance shares with all others. */
    const shared: ClassAttrs
    const prevHeadings: seq<String>
    const prevLinks: seq<String>
    /** Instance attributes once `is_new_news` has run; before that they
        read the class-level empty lists. */
    var newsHeadings: seq<String>
    var newsLinks: seq<String>
    /** The messages handed to `send_mail`, in order. */
    var outbox: seq<Message>

    constructor (shared: ClassAttrs, prevHeadings: seq<String>, prevLinks: seq<String>)
      ensures this.shared == shared
      ensures this.prevHeadings == prevHeadings && this.prevLinks == prevLinks
      ensures newsHeadings == [] && newsLinks == [] && outbox == []
    {
      this.shared := shared;
      this.prevHeadings := prevHeadings;
      this.prevLinks := prevLinks;
      newsHeadings, newsLinks, outbox := [], [], [];
    }

    /** `init`: extract, resolve the recipients whatever was found, send one
        message per stored user only when there is both a new heading and a
        new link, and record which case it was. */
    method Init(anchors: seq<Anchor>, rows: seq<Row>)
      modifies this, shared
      ensures shared.newHeadings == old(shared.newHeadings) + Headings(Top(anchors))
      ensures shared.newLinks == old(shared.newLinks) + Links(Top(anchors))
      ensures newsHeadings == Novel(shared.newHeadings, prevHeadings)
      ensures newsLinks == Novel(shared.newLinks, prevLinks)
      ensures shared.userInfo == old(shared.userInfo) + Accepted(rows)
      ensures outbox == old(outbox) +
                if HasNews(newsHeadings, newsLinks)
                then Letters(shared.userInfo, newsHeadings, newsLinks) else []
      ensures shared.botInfo == old(shared.botInfo)[ResultKey :=
                if HasNews(newsHeadings, newsLinks) then NewNewsFound else NoNewNewsFound]
    {
      GetNews(anchors);
      GetRecipients(rows);
      if newsHeadings != [] && newsLinks != [] {
        NotifyAll();
        shared.botInfo := shared.botInfo[ResultKey := NewNewsFound];
      } else {
        shared.botInfo := shared.botInfo[ResultKey := NoNewNewsFound];
      }
    }

    /** The send loop of `init`: one message per stored user, in order. */
    method NotifyAll()
      modifies this
      ensures outbox == old(outbox) + Letters(shared.userInfo, newsHeadings, newsLinks)
      ensures newsHeadings == old(newsHeadings) && newsLinks == old(newsLinks)
    {
      var users := shared.userInfo;
      for i := 0 to |users|
        invariant outbox == old(outbox) + Letters(users[..i], newsHeadings, newsLinks)
        invariant newsHeadings == old(newsHeadings) && newsLinks == old(newsLinks)
      {
        var message := GetMessage(users[i].name, users[i].email);
        SendMail(message);
        LettersPrefixStep(users, i, newsHeadings, newsLinks);
      }
      assert users[..|users|] == users;
    }

    /** `get_news`: append the heading and link of each of the first ten
        anchors, in lockstep, to the shared lists, then refilter. */
    method GetNews(anchors: seq<Anchor>)
      modifies this, shared
      ensures shared.newHeadings == old(shared.newHeadings) + Headings(Top(anchors))
      ensures shared.newLinks == old(shared.newLinks) + Links(Top(anchors))
      ensures newsHeadings == Novel(shared.newHeadings, prevHeadings)
      ensures newsLinks == Novel(shared.newLinks, prevLinks)
      ensures shared.userInfo == old(shared.userInfo) && shared.botInfo == old(shared.botInfo)
      ensures outbox == old(outbox)
    {
      AppendTopTen(anchors);
      IsNewNews();
    }

    /** The loop of `get_news`: the heading and link of each of the first ten
        anchors are appended, in lockstep, to the shared lists. */
    method AppendTopTen(anchors: seq<Anchor>)
      modifies shared
      ensures shared.newHeadings == old(shared.newHeadings) + Headings(Top(anchors))
      ensures shared.newLinks == old(shared.newLinks) + Links(Top(anchors))
      ensures shared.userInfo == old(shared.userInfo) && shared.botInfo == old(shared.botInfo)
    {
      var top := Top(anchors);
      for i := 0 to |top|
        invariant shared.newHeadings == old(shared.newHeadings) + Headings(top[..i])
        invariant shared.newLinks == old(shared.newLinks) + Links(top[..i])
        invariant shared.userInfo == old(shared.userInfo) && shared.botInfo == old(shared.botInfo)
      {
        var newHeading := Heading(top[i]);
        var newLink := Link(top[i]);
        ExtractionPrefixStep(top, i);
        SnocRegroup(old(shared.newHeadings), Headings(top[..i]), newHeading);
        SnocRegroup(old(shared.newLinks), Links(top[..i]), newLink);
        shared.newHeadings := shared.newHeadings + [newHeading];
        shared.newLinks := shared.newLinks + [newLink];
      }
      assert top[..|top|] == top;
    }

    /** `is_new_news`: the two novelty lists, each filtered on its own. */
    method IsNewNews()
      modifies this
      ensures newsHeadings == Novel(shared.newHeadings, prevHeadings)
      ensures newsLinks == Novel(shared.newLinks, prevLinks)
      ensures outbox == old(outbox)
    {
      newsHeadings := Novel(shared.newHeadings, prevHeadings);
      newsLinks := Novel(shared.newLinks, prevLinks);
    }

    /** `get_recipients`, given the sheet's `userInfo` rows. */
    method GetRecipients(rows: seq<Row>)
      modifies shared
      ensures shared.userInfo == old(shared.userInfo) + Accepted(rows)
      ensures shared.newHeadings == old(shared.newHeadings) && shared.newLinks == old(shared.newLinks)
      ensures shared.botInfo == old(shared.botInfo)
    {
      for i := 0 to |rows|
        invariant shared.userInfo == old(shared.userInfo) + Accepted(rows[..i])
        invariant shared.newHeadings == old(shared.newHeadings) && shared.newLinks == old(shared.newLinks)
        invariant shared.botInfo == old(shared.botInfo)
      {
        AddUser(rows[i]);
        AcceptedPrefixStep(rows, i);
      }
      assert rows[..|rows|] == rows;
    }

    /** `add_user`: store the row with both fields stripped, but only when
        both raw fields are non-empty. */
    method AddUser(row: Row)
      modifies shared
      ensures shared.userInfo == old(shared.userInfo) + Admit(row)
      ensures shared.newHeadings == old(shared.newHeadings) && shared.newLinks == old(shared.newLinks)
      ensures shared.botInfo == old(shared.botInfo)
    {
      if row.name != [] && row.emailAddress != [] {
        shared.userInfo := shared.userInfo + [User(Strip(row.name), Strip(row.emailAddress))];
      }
    }

    /** `get_message`: the recipient address and the text of the message. */
    function GetMessage(recipientName: String, recipientEmail: String): (m: Message)
      reads this
      ensures m.to == recipientEmail
      ensures StartsWith(m.content, "Dear " + recipientName + ",")
      ensures EndsWith(m.content, Body(newsHeadings, newsLinks))
    {
      Message(recipientEmail, Content(recipientName, newsHeadings, newsLinks))
    }

    /** `send_mail`, as an event: the message is handed to the transport. */
    method SendMail(message: Message)
      modifies this
      ensures outbox == old(outbox) + [message]
      ensures newsHeadings == old(newsHeadings) && newsLinks == old(newsLinks)
    {
      outbox := outbox + [message];
    }

    /** `add_new_news`: the baseline saved is the whole accumulated
        extraction, not its novelty subset. */
    method AddNewNews() returns (baseline: Baseline)
      ensures baseline.prevHeadings == shared.newHeadings
      ensures baseline.prevLinks == shared.newLinks
    {
      baseline := Baseline(shared.newHeadings, shared.newLinks);
    }
  }

  /** No mail goes out exactly when every extracted heading, or every
      extracted link, was already recorded. */
  lemma NoMailIff(headings: seq<String>, links: seq<String>,
                  prevHeadings: seq<String>, prevLinks: seq<String>)
    ensures !HasNews(Novel(headings, prevHeadings), Novel(links, prevLinks)) <==>
              (forall k :: 0 <= k < |headings| ==> headings[k] in prevHeadings) ||
              (forall k :: 0 <= k < |links| ==> links[k] in prevLinks)
  {
    NovelEmptyIff(headings, prevHeadings);
    NovelEmptyIff(links, prevLinks);
  }

  /** The page of the pairing example below: two notices, extracted as
      headings `A`, `B` and links to `a`, `b`. */
  lemma TwoNoticeExtraction()
    ensures Headings(Top([Anchor("A", Some("a")), Anchor("B", Some("b"))])) == ["A", "B"]
    ensures Links(Top([Anchor("A", Some("a")), Anchor("B", Some("b"))])) == [SiteRoot + "a", SiteRoot + "b"]
  {
    var anchors := [Anchor("A", Some("a")), Anchor("B", Some("b"))];
    assert Top(anchors) == anchors;
    assert Strip("A") == "A" && Strip("B") == "B";
    ExtractionSnoc([], anchors[0]);
    ExtractionSnoc([anchors[0]], anchors[1]);
    assert [anchors[0]] + [anchors[1]] == anchors;
  }

  /** Because the two lists are filtered independently, `zip` can pair a new
      heading with the link of a different notice: with the first notice's
      heading already seen and the second notice's link already seen, the
      body shows the second heading above the first link. */
  lemma MismatchedPairing()
    ensures var anchors := [Anchor("A", Some("a")), Anchor("B", Some("b"))];
            Body(Novel(Headings(Top(anchors)), ["A"]),
                 Novel(Links(Top(anchors)), [SiteRoot + "b"]))
            == Block("B", SiteRoot + "a")
  {
    TwoNoticeExtraction();
    var la: String, lb: String := SiteRoot + "a", SiteRoot + "b";
    assert la != lb by {
      assert la[|SiteRoot|] != lb[|SiteRoot|];
    }
    assert Novel(["A", "B"], ["A"]) == ["B"] by {
      assert ["A", "B"][1..] == ["B"];
      assert |["B"][1..]| == 0;
    }
    assert Novel([la, lb], [lb]) == [la] by {
      assert [la, lb][1..] == [lb];
      assert |[lb][1..]| == 0;
    }
    BodyStep(["B"], [la]);
    assert ["B"][1..] == [] && [la][1..] == [];
    BodyStep([], []);
  }

  /** The two novelty lists need not have the same length, although the
      extraction lists always do: on the two-notice page, with only the first
      heading recorded and no link recorded, one heading and two links are
      new. */
  lemma NoveltyLengthsUntied()
    ensures var anchors := [Anchor("A", Some("a")), Anchor("B", Some("b"))];
            |Headings(Top(anchors))| == |Links(Top(anchors))| &&
            |Novel(Headings(Top(anchors)), ["A"])| == 1 &&
            |Novel(Links(Top(anchors)), [])| == 2
  {
    TwoNoticeExtraction();
    var la: String, lb: String := SiteRoot + "a", SiteRoot + "b";
    assert Novel(["A", "B"], ["A"]) == ["B"] by {
      assert ["A", "B"][1..] == ["B"];
      assert |["B"][1..]| == 0;
    }
    assert Novel([la, lb], []) == [la, lb] by {
      assert [la, lb][1..] == [lb];
      assert |[lb][1..]| == 0;
    }
  }

  /** The persist-and-reload cycle between two scheduled runs: a run that
      starts from the baseline a previous run saved, and sees the same page,
      sends nothing and reports that no news was found. Each run is a fresh
      process, so each has its own class-level lists. */
  method RepeatRunIsQuiet(start: Baseline, anchors: seq<Anchor>, rows: seq<Row>)
    returns (sent: seq<Message>, result: String)
    ensures sent == []
    ensures result == NoNewNewsFound
  {
    var firstProcess := new ClassAttrs();
    var first := new NUBot(firstProcess, start.prevHeadings, start.prevLinks);
    first.Init(anchors, rows);
    var saved := first.AddNewNews();

    var secondProcess := new ClassAttrs();
    var second := new NUBot(secondProcess, saved.prevHeadings, saved.prevLinks);
    second.Init(anchors, rows);
    assert secondProcess.newHeadings == saved.prevHeadings;
    NovelAgainstItself(saved.prevHeadings);
    sent := second.outbox;
    result := secondProcess.botInfo[ResultKey];
  }
}
