/** Organiser templates: creating, publishing under a unique share slug, and
    unpublishing. */
module Templates {
  import opened Wrappers
  import opened Redis
  import opened Sql

  /** A JSON object, its values left as they are written. */
  type Canvas = map<string, string>

  datatype PlatformTemplate = PlatformTemplate(title: string, canvas: Option<Canvas>)

  datatype Template = Template(organizer: nat, platform: nat, title: string, canvas: Canvas, deletedAt: Option<Time>,
                               published: bool, publishedAt: Option<Time>, slug: Option<string>)

  datatype Tables = Tables(platform: map<nat, PlatformTemplate>, templates: map<nat, Template>)

  /** The unique column and the foreign key; NULL slugs never clash. */
  predicate Sound(t: Tables) {
    && (forall a, b :: a in t.templates && b in t.templates && a != b ==>
          !(t.templates[a].slug.Some? && t.templates[a].slug == t.templates[b].slug))
    && (forall a :: a in t.templates ==> t.templates[a].platform in t.platform)
  }

  const MAX_SLUG_RETRIES: nat := 5

  datatype Reply = Created(id: nat) | NoPlatformTemplate | NotFound | NotOwner | AlreadyPublished
    | NoUniqueSlug | Saved(row: Template) | Waited

  predicate Taken(t: Tables, slug: string) {
    exists a :: a in t.templates && t.templates[a].slug == Some(slug)
  }

  /** The first draw nobody uses yet, if there is one. */
  function FirstFree(t: Tables, draws: seq<string>): (i: Option<nat>)
    ensures i.Some? ==> i.value < |draws| && !Taken(t, draws[i.value])
    ensures i.Some? ==> forall j :: 0 <= j < i.value ==> Taken(t, draws[j])
    ensures i.None? ==> forall j :: 0 <= j < |draws| ==> Taken(t, draws[j])
  {
    if draws == [] then None
    else if !Taken(t, draws[0]) then Some(0)
    else
      var i := FirstFree(t, draws[1..]);
      if i.None? then None else Some(i.value + 1)
  }

  function Put(t: Tables, id: nat, row: Template): Tables { t.(templates := t.templates[id := row]) }

  /** A new template starts as an unpublished copy; a missing canvas becomes an empty one. */
  function Copy(organizer: nat, platform: nat, p: PlatformTemplate): Template {
    Template(organizer, platform, p.title, if p.canvas.Some? then p.canvas.value else map[], None, false, None, None)
  }

  function Create(t: Tables, organizer: nat, platform: nat, id: nat): (Tables, Reply) {
    if platform !in t.platform then (t, NoPlatformTemplate)
    else (Put(t, id, Copy(organizer, platform, t.platform[platform])), Created(id))
  }

  /** Publishing. A rollback after a slug collision also throws away the
      pending `is_published` and `published_at`, which are not set again. */
  function Publish(t: Tables, organizer: nat, id: nat, now: Time, draws: seq<string>): (Tables, Reply) {
    if id !in t.templates || t.templates[id].deletedAt.Some? then (t, NotFound)
    else if t.templates[id].organizer != organizer then (t, NotOwner)
    else if t.templates[id].published then (t, AlreadyPublished)
    else
      var row := t.templates[id];
      var live := row.(published := true, publishedAt := Some(now));
      if row.slug.Some? then (Put(t, id, live), Saved(live))
      else
        var i := FirstFree(t, draws);
        if i.None? then (t, NoUniqueSlug)
        else
          var saved := (if i.value == 0 then live else row).(slug := Some(draws[i.value]));
          (Put(t, id, saved), Saved(saved))
  }

  function Unpublish(t: Tables, organizer: nat, id: nat): (Tables, Reply) {
    if id !in t.templates || t.templates[id].deletedAt.Some? then (t, NotFound)
    else if t.templates[id].organizer != organizer then (t, NotOwner)
    else
      var row := t.templates[id].(published := false, publishedAt := None);
      (Put(t, id, row), Saved(row))
  }

  // ----- The service -----

  method CreateTemplateInstance(session: AsyncSession<Tables>, organizer: nat, platform: nat, id: nat) returns (r: Reply)
    requires session.Clean(Sound) && id !in session.committed.templates
    modifies session
    ensures session.Clean(Sound)
    ensures (session.committed, r) == Create(old(session.committed), organizer, platform, id)
  {
    if platform !in session.working.platform {
      return NoPlatformTemplate;
    }
    var row := Copy(organizer, platform, session.working.platform[platform]);
    session.working := Put(session.working, id, row);
    var flushed := session.Flush();
    assert flushed;
    var ok := session.Commit();
    r := Created(id);
  }

  /** The retry loop. `draws` are the slugs the generator would yield, in
      order; `attempts` counts the flushes made with one of them. */
  method ClaimSlug(session: AsyncSession<Tables>, id: nat, live: Template, draws: seq<string>)
    returns (found: bool, attempts: nat)
    requires Sound(session.committed) && |draws| == MAX_SLUG_RETRIES
    requires forall t :: session.constraints(t) == Sound(t)
    requires id in session.committed.templates && session.committed.templates[id].slug.None?
    requires live.slug.None? && live.platform == session.committed.templates[id].platform
    requires session.working == Put(session.committed, id, live)
    modifies session
    ensures session.committed == old(session.committed) && attempts <= MAX_SLUG_RETRIES
    ensures FirstFree(session.committed, draws) == if found then Some(attempts - 1) else None
    ensures found ==> attempts > 0 && Sound(session.working)
    ensures found ==> var row := if attempts == 1 then live else session.committed.templates[id];
      session.working == Put(session.committed, id, row.(slug := Some(draws[attempts - 1])))
    ensures !found ==> session.working == session.committed
  {
    ghost var t := session.committed;
    found, attempts := false, 0;
    while attempts < MAX_SLUG_RETRIES
      invariant session.committed == t && attempts <= MAX_SLUG_RETRIES && !found
      invariant forall j :: 0 <= j < attempts ==> Taken(t, draws[j])
      invariant session.working == if attempts == 0 then Put(t, id, live) else t
    {
      var row := session.working.templates[id];
      session.working := Put(session.working, id, row.(slug := Some(draws[attempts])));
      SlugFits(t, id, row, draws[attempts]);
      assert session.working == Put(t, id, row.(slug := Some(draws[attempts])));
      found := session.Flush();
      attempts := attempts + 1;
      if found {
        break;
      }
      session.Rollback();
    }
    FirstFreeIs(t, draws, if found then Some(attempts - 1) else None);
  }

  method PublishTemplate(session: AsyncSession<Tables>, organizer: nat, id: nat, now: Time, draws: seq<string>)
    returns (r: Reply, attempts: nat)
    requires session.Clean(Sound) && |draws| == MAX_SLUG_RETRIES
    modifies session
    ensures session.Clean(Sound) && attempts <= MAX_SLUG_RETRIES
    ensures (session.committed, r) == Publish(old(session.committed), organizer, id, now, draws)
  {
    attempts := 0;
    if id !in session.working.templates || session.working.templates[id].deletedAt.Some? {
      return NotFound, 0;
    }
    if session.working.templates[id].organizer != organizer {
      return NotOwner, 0;
    }
    if session.working.templates[id].published {
      return AlreadyPublished, 0;
    }
    PublishSavesUniqueSlug(session.committed, organizer, id, now, draws);
    var row := session.working.templates[id];
    var live := row.(published := true);
    live := live.(publishedAt := Some(now));
    session.working := Put(session.working, id, live);
    if row.slug.None? {
      var found;
      found, attempts := ClaimSlug(session, id, live, draws);
      if !found {
        return NoUniqueSlug, attempts;
      }
    }
    var ok := session.Commit();
    r := Saved(session.committed.templates[id]);
  }

  /** The flush accepts a row with a new slug exactly when nobody else has it. */
  lemma SlugFits(t: Tables, id: nat, row: Template, slug: string)
    requires Sound(t) && id in t.templates && t.templates[id].slug.None? && row.platform == t.templates[id].platform
    ensures Sound(Put(t, id, row.(slug := Some(slug)))) <==> !Taken(t, slug)
  {
    var t' := Put(t, id, row.(slug := Some(slug)));
    if Taken(t, slug) {
      var a :| a in t.templates && t.templates[a].slug == Some(slug);
      assert t'.templates[a].slug == t'.templates[id].slug && a != id;
    }
  }

  lemma {:induction false} FirstFreeIs(t: Tables, draws: seq<string>, i: Option<nat>)
    requires i.Some? ==> i.value < |draws| && !Taken(t, draws[i.value])
    requires forall j :: 0 <= j < (if i.Some? then i.value else |draws|) ==> Taken(t, draws[j])
    ensures FirstFree(t, draws) == i
  {
  }

  method UnpublishTemplate(session: AsyncSession<Tables>, organizer: nat, id: nat) returns (r: Reply)
    requires session.Clean(Sound)
    modifies session
    ensures session.Clean(Sound)
    ensures (session.committed, r) == Unpublish(old(session.committed), organizer, id)
  {
    if id !in session.working.templates || session.working.templates[id].deletedAt.Some? {
      return NotFound;
    }
    if session.working.templates[id].organizer != organizer {
      return NotOwner;
    }
    var row := session.working.templates[id];
    row := row.(published := false);
    row := row.(publishedAt := None);
    session.working := Put(session.working, id, row);
    var ok := session.Commit();
    r := Saved(row);
  }

  // ----- One publication -----

  /** Every exit either raises with the tables as they were, or commits the one
      row with a slug no other template has; an existing slug is kept. */
  lemma PublishSavesUniqueSlug(t: Tables, organizer: nat, id: nat, now: Time, draws: seq<string>)
    requires Sound(t)
    ensures var (t', r) := Publish(t, organizer, id, now, draws);
      if r.Saved? then
        && Sound(t') && id in t.templates && t' == Put(t, id, r.row) && r.row.slug.Some?
        && t.templates[id].organizer == organizer && t.templates[id].deletedAt.None? && !t.templates[id].published
        && (forall a :: a in t.templates && a != id ==> t.templates[a].slug != r.row.slug)
        && (t.templates[id].slug.Some? ==> r.row.slug == t.templates[id].slug)
        && (t.templates[id].slug.None? ==> r.row.slug.value in draws)
      else t' == t
  {
    var (t', r) := Publish(t, organizer, id, now, draws);
    if r.Saved? {
      var row := t.templates[id];
      if row.slug.None? {
        SlugFits(t, id, r.row, r.row.slug.value);
        assert r.row.(slug := r.row.slug) == r.row;
      } else {
        assert Sound(t');
      }
    }
  }

  /** Publishing leaves the template published exactly when it already had a
      slug or its first draw was free; otherwise its publication time stays as
      it was, even when a later draw is committed as its slug. */
  lemma PublishedExactly(t: Tables, organizer: nat, id: nat, now: Time, draws: seq<string>)
    requires id in t.templates && t.templates[id].deletedAt.None? && t.templates[id].organizer == organizer
    requires !t.templates[id].published && draws != []
    ensures var row, row' := t.templates[id], Publish(t, organizer, id, now, draws).0.templates[id];
      && (row'.published <==> row.slug.Some? || !Taken(t, draws[0]))
      && row'.publishedAt == (if row'.published then Some(now) else row.publishedAt)
      && (row'.slug.Some? <==> row.slug.Some? || exists j :: 0 <= j < |draws| && !Taken(t, draws[j]))
  {
  }

  predicate Owned(t: Tables, organizer: nat, id: nat) {
    id in t.templates && t.templates[id].deletedAt.None? && t.templates[id].organizer == organizer
  }

  /** Unknown or deleted. */
  predicate Missing(t: Tables, id: nat) { id in t.templates ==> t.templates[id].deletedAt.Some? }

  /** Which answer a publication gives; only a saved one changes the tables. */
  lemma PublishAnswersExactly(t: Tables, organizer: nat, id: nat, now: Time, draws: seq<string>)
    ensures var (t', r) := Publish(t, organizer, id, now, draws);
      && (r == NotFound <==> Missing(t, id))
      && (r == NotOwner <==> !Missing(t, id) && t.templates[id].organizer != organizer)
      && (r == AlreadyPublished <==> Owned(t, organizer, id) && t.templates[id].published)
      && (r == NoUniqueSlug <==>
            && Owned(t, organizer, id) && !t.templates[id].published && t.templates[id].slug.None?
            && (forall j :: 0 <= j < |draws| ==> Taken(t, draws[j])))
      && (if r.Saved? then id in t'.templates && r.row == t'.templates[id] else t' == t)
      && r in {NotFound, NotOwner, AlreadyPublished, NoUniqueSlug} + if r.Saved? then {r} else {}
  {
  }

  /** Publishing writes only the two publication fields and the slug of the one row. */
  lemma PublishTouchesOneRow(t: Tables, organizer: nat, id: nat, now: Time, draws: seq<string>)
    ensures var t' := Publish(t, organizer, id, now, draws).0;
      && t'.platform == t.platform && t'.templates.Keys == t.templates.Keys
      && (forall a :: a in t.templates && a != id ==> t'.templates[a] == t.templates[a])
      && (id in t.templates ==>
            var row := t'.templates[id];
            row.(published := t.templates[id].published, publishedAt := t.templates[id].publishedAt, slug := t.templates[id].slug)
              == t.templates[id])
  {
  }

  /** Unpublishing an owned template leaves it unpublished, without a time, and
      otherwise as it was, and answers with it; any other request is refused,
      and leaves everything alone. */
  lemma UnpublishExactly(t: Tables, organizer: nat, id: nat)
    ensures var (t', r) := Unpublish(t, organizer, id);
      && (r == NotFound <==> Missing(t, id))
      && (r == NotOwner <==> !Missing(t, id) && t.templates[id].organizer != organizer)
      && (Owned(t, organizer, id) ==>
            && id in t'.templates && r == Saved(t'.templates[id])
            && !t'.templates[id].published && t'.templates[id].publishedAt == None)
      && (Owned(t, organizer, id) ==>
            var was, row := t.templates[id], t'.templates[id];
            row.(published := was.published, publishedAt := was.publishedAt) == was)
      && (!Owned(t, organizer, id) ==> t' == t)
      && t'.platform == t.platform && t'.templates.Keys == t.templates.Keys
      && (forall a :: a in t.templates && a != id ==> t'.templates[a] == t.templates[a])
  {
  }

  /** A creation adds one unpublished template of the organiser who asked, with
      the title and the canvas of the platform template, or an empty canvas
      where that has none; it fails exactly when there is no such platform
      template, and then adds nothing. */
  lemma CreateExactly(t: Tables, organizer: nat, platform: nat, id: nat)
    requires id !in t.templates
    ensures var (t', r) := Create(t, organizer, platform, id);
      && (r == NoPlatformTemplate <==> platform !in t.platform)
      && (platform !in t.platform ==> t' == t)
      && (platform in t.platform ==>
            && r == Created(id) && t'.platform == t.platform && t'.templates.Keys == t.templates.Keys + {id}
            && (forall a :: a in t.templates ==> t'.templates[a] == t.templates[a])
            && CopyOf(t'.templates[id], organizer, platform, t.platform[platform]))
  {
  }

  predicate CopyOf(row: Template, organizer: nat, platform: nat, p: PlatformTemplate) {
    && row.organizer == organizer && row.platform == platform && row.title == p.title
    && (p.canvas.Some? ==> row.canvas == p.canvas.value) && (p.canvas.None? ==> row.canvas == map[])
    && row.deletedAt == None && !row.published && row.publishedAt == None && row.slug == None
  }

  /** A publication runs out of slugs exactly when every draw is taken. */
  lemma NoUniqueSlugExactly(t: Tables, organizer: nat, id: nat, now: Time, draws: seq<string>)
    requires id in t.templates && t.templates[id].deletedAt.None? && t.templates[id].organizer == organizer
    requires !t.templates[id].published
    ensures Publish(t, organizer, id, now, draws).1 == NoUniqueSlug <==>
      t.templates[id].slug.None? && forall j :: 0 <= j < |draws| ==> Taken(t, draws[j])
  {
  }

  // ----- Whole runs -----

  datatype Event =
    | Wait(elapsed: nat)
    | CreateRequest(organizer: nat, platform: nat, id: nat)
    | PublishRequest(organizer: nat, id: nat, draws: seq<string>)
    | UnpublishRequest(organizer: nat, id: nat)

  datatype History = Start | Then(before: History, event: Event)

  datatype World = World(now: Time, tables: Tables)

  function Serve(w: World, e: Event): (Tables, Reply) {
    match e
    case Wait(_) => (w.tables, Waited)
    case CreateRequest(organizer, platform, id) => Create(w.tables, organizer, platform, id)
    case PublishRequest(organizer, id, draws) => Publish(w.tables, organizer, id, w.now, draws)
    case UnpublishRequest(organizer, id) => Unpublish(w.tables, organizer, id)
  }

  function Step(w: World, e: Event): World {
    World(w.now + if e.Wait? then e.elapsed else 0, Serve(w, e).0)
  }

  function After(platform: map<nat, PlatformTemplate>, h: History): World {
    match h
    case Start => World(0, Tables(platform, map[]))
    case Then(g, e) => Step(After(platform, g), e)
  }

  /** Ids of new templates are new. */
  predicate Valid(platform: map<nat, PlatformTemplate>, h: History) {
    h.Then? ==>
      && Valid(platform, h.before)
      && (h.event.CreateRequest? ==> h.event.id !in After(platform, h.before).tables.templates)
  }

  predicate Extends(h: History, g: History) { h == g || (h.Then? && Extends(h.before, g)) }

  predicate RowOk(r: Template) {
    && (r.published <==> r.publishedAt.Some?)
    && (r.published ==> r.slug.Some?)
  }

  predicate Lawful(t: Tables) {
    Sound(t) && forall a :: a in t.templates ==> RowOk(t.templates[a])
  }

  /** The same template as before: owner, origin and title stay, and so does a slug once committed. */
  predicate SameTemplate(r: Template, r': Template) {
    && r'.organizer == r.organizer && r'.platform == r.platform && r'.title == r.title && r'.canvas == r.canvas
    && (r.slug.Some? ==> r'.slug == r.slug)
  }

  predicate Keeps(t: Tables, t': Tables) {
    forall a :: a in t.templates ==> a in t'.templates && SameTemplate(t.templates[a], t'.templates[a])
  }

  lemma PublishIsLawful(t: Tables, organizer: nat, id: nat, now: Time, draws: seq<string>)
    requires Lawful(t)
    ensures Lawful(Publish(t, organizer, id, now, draws).0) && Keeps(t, Publish(t, organizer, id, now, draws).0)
  {
    PublishSavesUniqueSlug(t, organizer, id, now, draws);
  }

  lemma CreateIsLawful(t: Tables, organizer: nat, platform: nat, id: nat)
    requires Lawful(t) && id !in t.templates
    ensures Lawful(Create(t, organizer, platform, id).0) && Keeps(t, Create(t, organizer, platform, id).0)
  {
  }

  lemma UnpublishIsLawful(t: Tables, organizer: nat, id: nat)
    requires Lawful(t)
    ensures Lawful(Unpublish(t, organizer, id).0) && Keeps(t, Unpublish(t, organizer, id).0)
  {
  }

  lemma StepIsLawful(w: World, e: Event)
    requires Lawful(w.tables) && (e.CreateRequest? ==> e.id !in w.tables.templates)
    ensures Lawful(Step(w, e).tables) && Keeps(w.tables, Step(w, e).tables)
  {
    match e
    case PublishRequest(organizer, id, draws) => PublishIsLawful(w.tables, organizer, id, w.now, draws);
    case CreateRequest(organizer, platform, id) => CreateIsLawful(w.tables, organizer, platform, id);
    case UnpublishRequest(organizer, id) => UnpublishIsLawful(w.tables, organizer, id);
    case Wait(_) =>
  }

  /** In every run slugs stay unique, a template is published exactly when its
      time of publication is set and only with a slug, no template is lost or
      handed over, and a committed slug never changes or disappears. */
  lemma {:induction false} TemplateLifecycle(platform: map<nat, PlatformTemplate>, g: History, h: History)
    requires Valid(platform, h) && Extends(h, g)
    ensures Lawful(After(platform, h).tables)
    ensures Keeps(After(platform, g).tables, After(platform, h).tables)
  {
    if h != g {
      TemplateLifecycle(platform, g, h.before);
      StepIsLawful(After(platform, h.before), h.event);
    } else if h.Then? {
      TemplateLifecycle(platform, g.before, h.before);
      StepIsLawful(After(platform, h.before), h.event);
    }
  }

  // ----- What the log of a run tells -----

  datatype Record = Record(at: Time, event: Event, reply: Reply)

  function Log(platform: map<nat, PlatformTemplate>, h: History): seq<Record> {
    match h
    case Start => []
    case Then(g, e) => Log(platform, g) + [Record(After(platform, g).now, e, Serve(After(platform, g), e).1)]
  }

  predicate Publishes(r: Record) { r.event.PublishRequest? && r.reply.Saved? }

  /** Some publication answered with this slug. */
  predicate SlugSeen(log: seq<Record>, slug: string) {
    exists i :: 0 <= i < |log| && Publishes(log[i]) && log[i].reply.row.slug == Some(slug)
  }

  /** What the log tells of one template: its owner, since when it is published,
      and its slug. */
  datatype Story = Story(owner: Option<nat>, live: Option<Time>, slug: Option<string>)

  function StoryOf(log: seq<Record>, id: nat): Story {
    if log == [] then Story(None, None, None)
    else
      var r, before := log[|log| - 1], log[..|log| - 1];
      Continue(StoryOf(before, id), r, id, r.event.PublishRequest? && r.event.draws != [] && !SlugSeen(before, r.event.draws[0]))
  }

  /** A publication takes effect if the template had a slug before, or its
      first draw had never been answered to anyone. */
  function Continue(was: Story, r: Record, id: nat, firstIsFree: bool): Story {
    match r.event
    case CreateRequest(organizer, _, _) => if r.reply == Created(id) then was.(owner := Some(organizer)) else was
    case PublishRequest(_, i, _) =>
      if i != id || !r.reply.Saved? then was
      else was.(live := if was.slug.Some? || firstIsFree then Some(r.at) else was.live, slug := r.reply.row.slug)
    case UnpublishRequest(_, i) => if i == id && r.reply.Saved? then was.(live := None) else was
    case Wait(_) => was
  }

  predicate Tells(s: Story, t: Tables, id: nat) {
    if id !in t.templates then s == Story(None, None, None)
    else
      var row := t.templates[id];
      && s == Story(Some(row.organizer), row.publishedAt, row.slug)
      && row.deletedAt == None && (row.published <==> s.live.Some?)
  }

  lemma StepTells(w: World, e: Event, id: nat, s: Story)
    requires Tells(s, w.tables, id) && (e.CreateRequest? ==> e.id !in w.tables.templates)
    ensures Tells(Continue(s, Record(w.now, e, Serve(w, e).1), id,
                           e.PublishRequest? && e.draws != [] && !Taken(w.tables, e.draws[0])), Step(w, e).tables, id)
  {
  }

  lemma StepTakes(w: World, e: Event, slug: string)
    requires e.CreateRequest? ==> e.id !in w.tables.templates
    ensures var r := Record(w.now, e, Serve(w, e).1);
      Taken(Step(w, e).tables, slug) <==> Taken(w.tables, slug) || (Publishes(r) && r.reply.row.slug == Some(slug))
  {
    var t, t' := w.tables, Step(w, e).tables;
    if Taken(t, slug) {
      var a :| a in t.templates && t.templates[a].slug == Some(slug);
      assert t'.templates[a].slug == Some(slug);
    }
    if Publishes(Record(w.now, e, Serve(w, e).1)) {
      assert t'.templates[e.id] == Serve(w, e).1.row;
    }
  }

  lemma SlugSeenAppend(log: seq<Record>, r: Record, slug: string)
    ensures SlugSeen(log + [r], slug) <==> SlugSeen(log, slug) || (Publishes(r) && r.reply.row.slug == Some(slug))
  {
    if SlugSeen(log, slug) {
      var i :| 0 <= i < |log| && Publishes(log[i]) && log[i].reply.row.slug == Some(slug);
      assert (log + [r])[i] == log[i];
    }
    assert (log + [r])[|log|] == r;
  }

  /** A slug is taken exactly when some publication answered with it. */
  lemma {:induction false} TakenExactly(platform: map<nat, PlatformTemplate>, h: History, slug: string)
    requires Valid(platform, h)
    ensures Taken(After(platform, h).tables, slug) <==> SlugSeen(Log(platform, h), slug)
  {
    match h
    case Start =>
    case Then(g, e) =>
      var w := After(platform, g);
      TakenExactly(platform, g, slug);
      StepTakes(w, e, slug);
      SlugSeenAppend(Log(platform, g), Record(w.now, e, Serve(w, e).1), slug);
  }

  /** In every run a template's owner, whether and since when it is published,
      and its slug are what the log tells. */
  lemma {:induction false} StoryIsTrue(platform: map<nat, PlatformTemplate>, h: History, id: nat)
    requires Valid(platform, h)
    ensures Tells(StoryOf(Log(platform, h), id), After(platform, h).tables, id)
  {
    match h
    case Start =>
    case Then(g, e) =>
      var w, log := After(platform, g), Log(platform, g);
      StoryIsTrue(platform, g, id);
      StepTells(w, e, id, StoryOf(log, id));
      if e.PublishRequest? && e.draws != [] {
        TakenExactly(platform, g, e.draws[0]);
      }
      assert Log(platform, h)[..|log|] == log;
  }

  /** Which answer a publication gives, read off the log, and with which slug it
      goes through: the one it had, or else the first draw never answered. */
  lemma PublicationExactly(platform: map<nat, PlatformTemplate>, h: History, organizer: nat, id: nat, draws: seq<string>)
    requires Valid(platform, h)
    ensures var log, w := Log(platform, h), After(platform, h);
      var s, r := StoryOf(log, id), Publish(w.tables, organizer, id, w.now, draws).1;
      && (r == NotFound <==> s.owner == None)
      && (r == NotOwner <==> s.owner != None && s.owner != Some(organizer))
      && (r == AlreadyPublished <==> s.owner == Some(organizer) && s.live.Some?)
      && (r == NoUniqueSlug <==>
            && s.owner == Some(organizer) && s.live.None? && s.slug.None?
            && (forall j :: 0 <= j < |draws| ==> SlugSeen(log, draws[j])))
      && (r.Saved? && s.slug.Some? ==> r.row.slug == s.slug)
      && (r.Saved? && s.slug.None? ==>
            exists j :: 0 <= j < |draws| && r.row.slug == Some(draws[j]) && !SlugSeen(log, draws[j])
              && forall i :: 0 <= i < j ==> SlugSeen(log, draws[i]))
      && r in {NotFound, NotOwner, AlreadyPublished, NoUniqueSlug} + if r.Saved? then {r} else {}
  {
    var log, w := Log(platform, h), After(platform, h);
    StoryIsTrue(platform, h, id);
    forall slug ensures Taken(w.tables, slug) <==> SlugSeen(log, slug) {
      TakenExactly(platform, h, slug);
    }
    PublishAnswersExactly(w.tables, organizer, id, w.now, draws);
  }

  // ----- A lost publication -----

  /** Two templates of one organiser; the second draws the slug of the first
      and then, on the retry, a free one. Such a run commits the slug of the
      second template and answers with the saved row, yet leaves it unpublished. */
  lemma PublicationGetsLost(platform: map<nat, PlatformTemplate>, p: nat, organizer: nat, first: seq<string>, second: seq<string>)
    returns (h: History)
    requires p in platform && |first| == |second| == MAX_SLUG_RETRIES
    requires second[0] == first[0] && second[1] != first[0]
    ensures h.Then? && h.event == PublishRequest(organizer, 1, second) && Valid(platform, h)
    ensures var w, t := After(platform, h.before), After(platform, h).tables;
      && 1 in t.templates && Publish(w.tables, organizer, 1, w.now, second).1 == Saved(t.templates[1])
      && t.templates[1].slug == Some(second[1]) && !t.templates[1].published && t.templates[1].publishedAt == None
  {
    var row := Copy(organizer, p, platform[p]);
    assert Valid(platform, Start) && After(platform, Start).tables == Tables(platform, map[]);
    var h1 := Then(Start, CreateRequest(organizer, p, 0));
    assert Valid(platform, h1) && After(platform, h1).tables == Tables(platform, map[0 := row]);
    var h2 := Then(h1, CreateRequest(organizer, p, 1));
    var t := After(platform, h2).tables;
    assert Valid(platform, h2) && t == Tables(platform, map[0 := row, 1 := row]);
    FirstFreeIs(t, first, Some(0));
    var h3 := Then(h2, PublishRequest(organizer, 0, first));
    t := After(platform, h3).tables;
    assert Valid(platform, h3) && t.templates[0].slug == Some(first[0]) && t.templates[1] == row;
    FirstFreeIs(t, second, Some(1));
    h := Then(h3, PublishRequest(organizer, 1, second));
    assert After(platform, h).tables == Put(t, 1, row.(slug := Some(second[1])));
  }
}
