/**
 Create grants are changed in two steps: an administrator sees the impact first, and the change is made only
 if that impact still stands. The digest is taken to be injective, so it is the operation with its impact.
 */
module AclPreviews {

  import opened AccessControl
  import opened Wrappers

  type Time = int

  datatype Digest = Digest(op: Operation, impact: Impact)

  datatype Preview = Preview(actor: Id, digest: Digest, version: nat, expires: Time, consumed: bool)

  datatype Book = Book(acl: Acl, version: nat, previews: map<Id, Preview>)

  const FIVE_MINUTES: Time := 300

  datatype Step =
    | MakePreview(actor: Id, id: Id, op: Operation)
    | ApplyPreview(actor: Id, id: Id, digest: Digest)
    | Otherwise(acl: Acl, version: nat)

  /** An administrator asks for a preview; it remembers the authorization version. */
  ghost function Make(b: Book, t: Time, actor: Id, id: Id, op: Operation): Option<Book> {
    if !IsAdmin(b.acl, actor) || id in b.previews || !op.SetCreateGrant? || ImpactOf(b.acl, op).None? then None
    else
      var p := Preview(actor, Digest(op, ImpactOf(b.acl, op).value), b.version, t + FIVE_MINUTES, false);
      Some(b.(previews := b.previews[id := p]))
  }

  /** The checks made under the locks, all of them again on the current tables. */
  ghost predicate Stands(b: Book, t: Time, actor: Id, id: Id, digest: Digest) {
    && IsAdmin(b.acl, actor) && id in b.previews && digest.op.SetCreateGrant?
    && var p := b.previews[id];
       && p.actor == actor && p.digest == digest && p.version == b.version && p.expires > t && !p.consumed
       && ImpactOf(b.acl, p.digest.op) == Some(digest.impact)
  }

  ghost function Carry(b: Book, t: Time, actor: Id, id: Id, digest: Digest): Option<Book> {
    if !Stands(b, t, actor, id, digest) || Apply(b.acl, digest.op).None? then None
    else Some(Book(Apply(b.acl, digest.op).value, b.version + 1, b.previews[id := b.previews[id].(consumed := true)]))
  }

  /** `Otherwise` is any other transaction: it may change the tables, and may raise the version. */
  ghost function After(b: Book, t: Time, step: Step): Book {
    match step
    case MakePreview(actor, id, op) => if Make(b, t, actor, id, op).Some? then Make(b, t, actor, id, op).value else b
    case ApplyPreview(actor, id, digest) =>
      if Carry(b, t, actor, id, digest).Some? then Carry(b, t, actor, id, digest).value else b
    case Otherwise(acl, version) => if b.version <= version then b.(acl := acl, version := version) else b
  }

  ghost function Run(b: Book, steps: seq<(Time, Step)>): Book {
    if steps == [] then b
    else
      var k := |steps| - 1;
      After(Run(b, steps[..k]), steps[k].0, steps[k].1)
  }

  /**
   Whatever happened since the preview was shown, a change that goes through alters create access for exactly
   the members and folders that were shown, and it is the change that was shown.
   */
  lemma WhatWasShownIsWhatHappens(b: Book, t: Time, actor: Id, id: Id, op: Operation, steps: seq<(Time, Step)>,
                                  t': Time, actor': Id)
    requires Make(b, t, actor, id, op).Some?
    requires var seen := Make(b, t, actor, id, op).value;
             Carry(Run(seen, steps), t', actor', id, seen.previews[id].digest).Some?
    ensures var seen := Make(b, t, actor, id, op).value;
            var now := Run(seen, steps);
            var changed := Carry(now, t', actor', id, seen.previews[id].digest).value;
            && Apply(now.acl, op) == Some(changed.acl)
            && IsImpact(now.acl, changed.acl, ImpactOf(b.acl, op).value)
            && now.version == b.version && changed.version == b.version + 1
            && actor' == actor && t' < t + FIVE_MINUTES
  {
    var seen := Make(b, t, actor, id, op).value;
    var now := Run(seen, steps);
    RunKeepsPreviews(seen, steps, id);
    AppliedIsImagined(now.acl, op);
  }

  predicate SameButConsumed(p: Preview, q: Preview) {
    q == p || q == p.(consumed := true)
  }

  lemma {:induction false} RunKeepsPreviews(b: Book, steps: seq<(Time, Step)>, id: Id)
    requires id in b.previews
    ensures id in Run(b, steps).previews && SameButConsumed(b.previews[id], Run(b, steps).previews[id])
    ensures b.version <= Run(b, steps).version
  {
    if steps != [] {
      RunKeepsPreviews(b, steps[..|steps| - 1], id);
    }
  }

  /** Once any preview of a version has been carried out, none of that version, itself included, ever is again. */
  lemma OnePerVersion(b: Book, t: Time, actor: Id, id: Id, digest: Digest, steps: seq<(Time, Step)>,
                      t': Time, actor': Id, other: Id, digest': Digest)
    requires Carry(b, t, actor, id, digest).Some? && other in b.previews && b.previews[other].version <= b.version
    ensures Carry(Run(Carry(b, t, actor, id, digest).value, steps), t', actor', other, digest').None?
  {
    RunKeepsPreviews(Carry(b, t, actor, id, digest).value, steps, other);
  }

  // ---------- the tables, changed in place ----------

  class Permissions {
    var acl: Acl
    var version: nat
    var previews: map<Id, Preview>

    function Tables(): Book
      reads this
    {
      Book(acl, version, previews)
    }

    /** An administrator is shown what a change would alter; the preview is good for 300 seconds and this version. */
    method PreviewAcl(t: Time, actor: Id, id: Id, op: Operation, ghost rank: map<Id, nat>)
      returns (impact: Option<Impact>)
      requires IsRank(acl.nodes, rank)
      modifies this`previews
      ensures impact.Some? <==>
                && actor in acl.users && acl.users[actor].isAdmin && acl.users[actor].isActive
                && id !in old(previews) && op.SetCreateGrant? && op.folder in acl.nodes && acl.nodes[op.folder].isFolder
      ensures impact.Some? && Apply(acl, op).Some? ==> IsImpact(acl, Apply(acl, op).value, impact.value)
      ensures previews ==
        if impact.Some? then old(previews)[id := Preview(actor, Digest(op, impact.value), version, t + 300, false)]
        else old(previews)
      ensures impact.Some? <==> Make(old(Tables()), t, actor, id, op).Some?
      ensures Tables() == if impact.Some? then Make(old(Tables()), t, actor, id, op).value else old(Tables())
    {
      if !IsAdmin(acl, actor) || id in previews || !op.SetCreateGrant? { return None; }
      impact := AccessControl.Preview(acl, op, rank);
      if impact.Some? {
        previews := previews[id := Preview(actor, Digest(op, impact.value), version, t + FIVE_MINUTES, false)];
      }
    }

    /**
     Carries a previewed change out, under the locks. It goes through exactly if the actor still is an active
     administrator, the preview is the actor's own, unused, in time and of the current version, and what it showed is
     still what would happen. Then the grant is there exactly if it was to be, and nothing else has changed but the
     version and the mark on the preview.
     */
    method ApplyAcl(t: Time, actor: Id, id: Id, digest: Digest, ghost rank: map<Id, nat>) returns (result: Option<nat>)
      requires IsRank(acl.nodes, rank)
      modifies this
      ensures result.Some? <==> Goes(old(Tables()), t, actor, id, digest)
      ensures result.Some? ==>
                && result.value == version == old(version) + 1
                && acl == old(acl).(createGrants := acl.createGrants)
                && previews == old(previews)[id := old(previews)[id].(consumed := true)]
                && forall g :: g in acl.createGrants <==>
                     if g == Grant(digest.op.folder, digest.op.principal) then digest.op.present
                     else g in old(acl).createGrants
      ensures result.Some? <==> Carry(old(Tables()), t, actor, id, digest).Some?
      ensures Tables() == if result.Some? then Carry(old(Tables()), t, actor, id, digest).value
                          else old(Tables())
    {
      GoesIfItStands(Tables(), t, actor, id, digest);
      if !IsAdmin(acl, actor) || id !in previews || !digest.op.SetCreateGrant? { return None; }
      var p := previews[id];
      if p.actor != actor || p.digest != digest || p.version != version || p.expires <= t || p.consumed { return None; }
      var impact := AccessControl.Preview(acl, p.digest.op, rank);
      if impact != Some(digest.impact) { return None; }
      var g := Grant(digest.op.folder, digest.op.principal);
      if digest.op.present {
        if !IsFolder(acl, g.node) || !Exists(acl, g.principal) { return None; }
        acl := acl.(createGrants := acl.createGrants + {g});
      } else {
        acl := acl.(createGrants := acl.createGrants - {g});
      }
      version := version + 1;
      previews := previews[id := p.(consumed := true)];
      return Some(version);
    }
  }

  /** When a previewed change goes through, said of the rows themselves. */
  ghost predicate Goes(b: Book, t: Time, actor: Id, id: Id, digest: Digest) {
    && actor in b.acl.users && b.acl.users[actor].isAdmin && b.acl.users[actor].isActive
    && digest.op.SetCreateGrant? && id in b.previews
    && b.previews[id].actor == actor && b.previews[id].digest == digest && b.previews[id].version == b.version
    && t < b.previews[id].expires && !b.previews[id].consumed
    && digest.op.folder in b.acl.nodes && b.acl.nodes[digest.op.folder].isFolder
    && (digest.op.present ==> match digest.op.principal
                              case User(u) => u in b.acl.users
                              case Team(team) => team in b.acl.teams)
    && IsImpact(b.acl, Changed(b.acl, digest.op), digest.impact)
  }

  /** The tables with the grant, or without it. */
  function Changed(acl: Acl, op: Operation): Acl
    requires op.SetCreateGrant?
  {
    var others := set g | g in acl.createGrants && g != Grant(op.folder, op.principal);
    acl.(createGrants := if op.present then others + {Grant(op.folder, op.principal)} else others)
  }

  lemma GoesIfItStands(b: Book, t: Time, actor: Id, id: Id, digest: Digest)
    ensures Goes(b, t, actor, id, digest) <==> Carry(b, t, actor, id, digest).Some?
  {
    hide IsImpact;
    if digest.op.SetCreateGrant? && IsFolder(b.acl, digest.op.folder) {
      var after := Changed(b.acl, digest.op);
      assert after.createGrants == Imagined(b.acl, digest.op).createGrants;
      var impact := ImpactOf(b.acl, digest.op).value;
      if IsImpact(b.acl, after, digest.impact) {
        ImpactIsUnique(b.acl, after, impact, digest.impact);
      }
    }
  }
}
