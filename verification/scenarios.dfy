/** Properties of several requests in a row: who can ever read results,
    what a second vote gets, and joining a community before voting in one
    of its sessions. */
module Scenarios {

  import opened Wrappers
  import opened Domain
  import Votes
  import Results
  import Users
  import Communities

  /** A token payload that names a stored user with the stored role. */
  predicate Current(st: Store, p: Payload)
  {
    exists u :: u in st.users && u.id == p.usuarioId && u.tipo == p.tipo
  }

  /** The primary key of `usuarios`. */
  predicate UniqueUserIds(us: seq<User>)
  {
    forall i, j :: 0 <= i < j < |us| ==> us[i].id != us[j].id
  }

  /** Every vote was cast by a stored PARTICIPANTE. */
  predicate VotersAreParticipants(st: Store)
  {
    forall v :: v in st.votes ==> exists u :: u in st.users && u.id == v.usuarioId && u.tipo == Participante
  }

  /** Only a PARTICIPANTE can vote, and the results route answers only those
      who voted, so an ADMIN or a GESTOR whose token is current never reads
      results. */
  lemma StaffNeverSeeResults(st: Store, p: Payload, sid: int)
    requires UniqueUserIds(st.users) && VotersAreParticipants(st)
    requires Current(st, p) && p.tipo != Participante
    ensures Results.GetResults(st, Valid(p), Some(sid)) == Fail(403, Results.NotVotedYet)
  {
  }

  /** A vote keeps the invariant: it is cast by the caller, a PARTICIPANTE. */
  lemma VoteKeepsVoters(st: Store, p: Payload, now: int, b: Votes.VoteBody)
    requires VotersAreParticipants(st) && Current(st, p)
    requires Votes.PostVote(st, Valid(p), now, b).Done?
    ensures VotersAreParticipants(Votes.PostVote(st, Valid(p), now, b).value.1)
  {
  }

  /** A sign-up keeps both invariants: the new user gets a fresh id and no
      vote changes. */
  lemma SignupKeepsVoters(st: Store, b: Users.UserBody, isEmail: string -> bool, hash: string -> string)
    requires UniqueUserIds(st.users) && VotersAreParticipants(st)
    requires Users.PostUser(st, b, isEmail, hash).Done?
    ensures var st' := Users.PostUser(st, b, isEmail, hash).value.1;
      UniqueUserIds(st'.users) && VotersAreParticipants(st')
  {
    var st' := Users.PostUser(st, b, isEmail, hash).value.1;
    forall v | v in st'.votes
      ensures exists u :: u in st'.users && u.id == v.usuarioId && u.tipo == Participante
    {
      var u :| u in st.users && u.id == v.usuarioId && u.tipo == Participante;
      assert u in st'.users;
    }
  }

  /** After a vote, the same caller's second vote in that session is not
      recorded (409 once it passes the other checks), and the session's
      results are now open to them. */
  lemma SecondVoteConflicts(st: Store, p: Payload, now: int, b: Votes.VoteBody, now2: int, b2: Votes.VoteBody)
    requires Votes.PostVote(st, Valid(p), now, b).Done?
    requires b2.sessaoId == b.sessaoId
    ensures var st' := Votes.PostVote(st, Valid(p), now, b).value.1;
      && !Votes.PostVote(st', Valid(p), now2, b2).Done?
      && (Votes.Eligible(st', Valid(p), now2, b2) ==>
            Votes.PostVote(st', Valid(p), now2, b2) == Fail(409, Votes.AlreadyVoted))
      && Results.GetResults(st', Valid(p), b.sessaoId).Done?
  {
    var r := Votes.PostVote(st, Valid(p), now, b);
    var st' := r.value.1;
    assert r.value.0 in st'.votes;
  }

  /** A PARTICIPANTE turned away from a live session of a community for not
      being a member joins it by its code and can then vote there. */
  lemma JoinThenVote(st: Store, p: Payload, jb: Communities.JoinBody, now: int, vb: Votes.VoteBody)
    requires p.tipo == Participante && vb.sessaoId.Some? && vb.projetoId.Some?
    requires Communities.JoinByCode(st, Valid(p), jb).Done?
    requires FindSession(st, vb.sessaoId.value).Some?
    requires var s := FindSession(st, vb.sessaoId.value).value;
      && Votes.SessionLive(s, now)
      && s.comunidadeId == Some(Communities.FindByCode(st, jb.codigo.value).value.id)
    requires Votes.ProjectInSession(st, vb.projetoId.value, vb.sessaoId.value)
    requires !Votes.HasVoted(st, p.usuarioId, vb.sessaoId.value)
    ensures var s := FindSession(st, vb.sessaoId.value).value;
      Votes.HasCommunity(s) ==> Votes.PostVote(st, Valid(p), now, vb) == Fail(403, Votes.NotMember)
    ensures Votes.PostVote(Communities.JoinByCode(st, Valid(p), jb).value.1, Valid(p), now, vb).Done?
  {
    TurnedAway(st, p, jb, now, vb);
    VotesOnceJoined(st, p, jb, now, vb);
  }

  lemma TurnedAway(st: Store, p: Payload, jb: Communities.JoinBody, now: int, vb: Votes.VoteBody)
    requires p.tipo == Participante && vb.sessaoId.Some? && vb.projetoId.Some?
    requires Communities.JoinByCode(st, Valid(p), jb).Done?
    requires FindSession(st, vb.sessaoId.value).Some?
    requires var s := FindSession(st, vb.sessaoId.value).value;
      && Votes.SessionLive(s, now)
      && s.comunidadeId == Some(Communities.FindByCode(st, jb.codigo.value).value.id)
    requires Votes.ProjectInSession(st, vb.projetoId.value, vb.sessaoId.value)
    requires !Votes.HasVoted(st, p.usuarioId, vb.sessaoId.value)
    ensures var s := FindSession(st, vb.sessaoId.value).value;
      Votes.HasCommunity(s) ==> Votes.PostVote(st, Valid(p), now, vb) == Fail(403, Votes.NotMember)
  {
  }

  lemma VotesOnceJoined(st: Store, p: Payload, jb: Communities.JoinBody, now: int, vb: Votes.VoteBody)
    requires p.tipo == Participante && vb.sessaoId.Some? && vb.projetoId.Some?
    requires Communities.JoinByCode(st, Valid(p), jb).Done?
    requires FindSession(st, vb.sessaoId.value).Some?
    requires var s := FindSession(st, vb.sessaoId.value).value;
      && Votes.SessionLive(s, now)
      && s.comunidadeId == Some(Communities.FindByCode(st, jb.codigo.value).value.id)
    requires Votes.ProjectInSession(st, vb.projetoId.value, vb.sessaoId.value)
    requires !Votes.HasVoted(st, p.usuarioId, vb.sessaoId.value)
    ensures Votes.PostVote(Communities.JoinByCode(st, Valid(p), jb).value.1, Valid(p), now, vb).Done?
  {
    var c := Communities.FindByCode(st, jb.codigo.value).value;
    var st' := Communities.JoinByCode(st, Valid(p), jb).value.1;
    var s := FindSession(st, vb.sessaoId.value).value;
    assert st'.communities == st.communities && st'.sessions == st.sessions;
    assert FindSession(st', vb.sessaoId.value) == Some(s);
    assert FindCommunity(st', c.id).Some? by {
      assert c in st'.communities;
    }
    assert Votes.MayVoteIn(st', p.usuarioId, s) by {
      assert Membership(p.usuarioId, c.id) in st'.members;
    }
    assert Votes.ProjectInSession(st', vb.projetoId.value, vb.sessaoId.value) by {
      assert st'.projects == st.projects;
    }
    assert !Votes.HasVoted(st', p.usuarioId, vb.sessaoId.value) by {
      assert st'.votes == st.votes;
    }
    assert Votes.Eligible(st', Valid(p), now, vb);
  }
}
