/** The story-client slice of src/modules/hnClient/HNClientReducer.ts: its
    state, its four action kinds and the reducer. In this version of the file
    the reducer reacts to GET_STORIES and GET_STORIES_SUCCESS only. */
module HNClientReducer {
  const SET_STORY_TYPE := "boilerplate/HNClient/SET_STORY_TYPE"
  const GET_STORIES := "boilerplate/HNClient/GET_STORIES"
  const GET_STORY_IDS_SUCCESS := "boilerplate/HNClient/GET_STORY_IDS_SUCCESS"
  const GET_STORIES_SUCCESS := "boilerplate/HNClient/GET_STORIES_SUCCESS"

  const HNClientKinds: set<string> := {SET_STORY_TYPE, GET_STORIES, GET_STORY_IDS_SUCCESS, GET_STORIES_SUCCESS}

  /** The type of an action that belongs to another slice. */
  type ForeignKind = k: string | k !in HNClientKinds witness ""

  /** The story categories; the enum's own file is not part of this model. */
  datatype StoryType = New | Top | Best

  /** A fetched story (src/common/Story.ts); the source field `by` is
      named `author` here and the constant item-type tag is omitted. */
  datatype Story = Story(
    author: string, descendants: int, id: int, kids: seq<int>,
    score: int, time: int, title: string, url: string)

  /** `HNClientState`: the selected category, the stories shown, the loading flag. */
  datatype State = State(storyType: StoryType, stories: seq<Story>, loading: bool)

  /** `new HNClientState()`. */
  const Initial := State(New, [], false)

  /** The objects built by the four creators `setStoryType`, `getStories`,
      `getStoryIdsSuccess` and `getStoriesSuccess`, and any other action. */
  datatype Action =
    | SetStoryType(selected: StoryType)
    | GetStories(requested: StoryType)
    | GetStoryIdsSuccess(ids: seq<int>)
    | GetStoriesSuccess(fetched: seq<Story>)
    | Other(kind: ForeignKind)

  /** The `type` property each creator puts on its action. The four keys are
      different strings, so the reducer's `switch` tells the kinds apart. */
  function TypeOf(a: Action): (k: string)
    ensures a.SetStoryType? <==> k == SET_STORY_TYPE
    ensures a.GetStories? <==> k == GET_STORIES
    ensures a.GetStoryIdsSuccess? <==> k == GET_STORY_IDS_SUCCESS
    ensures a.GetStoriesSuccess? <==> k == GET_STORIES_SUCCESS
    ensures a.Other? <==> k !in HNClientKinds
  {
    // Index 21 is the first character after the shared "boilerplate/HNClient/" prefix.
    assert GET_STORIES[21] != SET_STORY_TYPE[21];
    assert |GET_STORY_IDS_SUCCESS| != |GET_STORIES_SUCCESS|;
    match a
    case SetStoryType(_) => SET_STORY_TYPE
    case GetStories(_) => GET_STORIES
    case GetStoryIdsSuccess(_) => GET_STORY_IDS_SUCCESS
    case GetStoriesSuccess(_) => GET_STORIES_SUCCESS
    case Other(k) => k
  }

  /** `HNClientReducer(state, action)`. */
  function Reduce(s: State, a: Action): (r: State)
    ensures r.storyType == s.storyType
    ensures a.GetStories? ==> r.stories == s.stories && r.loading
    ensures a.GetStoriesSuccess? ==> r.stories == a.fetched && !r.loading
    ensures !a.GetStories? && !a.GetStoriesSuccess? ==> r == s
  {
    match a
    case GetStories(_) => s.(loading := true)
    case GetStoriesSuccess(xs) => s.(stories := xs, loading := false)
    case _ => s
  }

  /** Dispatching a sequence of actions, in order. */
  function Run(s: State, actions: seq<Action>): (r: State)
    decreases |actions|
  {
    if actions == [] then s else Run(Reduce(s, actions[0]), actions[1..])
  }

  /** The stories after a run: those of the last GET_STORIES_SUCCESS, or the
      starting ones when there is none. Later results replace earlier ones. */
  function LastFetched(stories: seq<Story>, actions: seq<Action>): (shown: seq<Story>)
    decreases |actions|
  {
    if actions == [] then stories
    else if actions[|actions| - 1].GetStoriesSuccess? then actions[|actions| - 1].fetched
    else LastFetched(stories, actions[..|actions| - 1])
  }

  lemma {:induction false} RunSplit(s: State, actions: seq<Action>)
    requires actions != []
    ensures Run(s, actions) == Reduce(Run(s, actions[..|actions| - 1]), actions[|actions| - 1])
    decreases |actions|
  {
    if |actions| > 1 {
      RunSplit(Reduce(s, actions[0]), actions[1..]);
      assert actions[1..][..|actions[1..]| - 1] == actions[..|actions| - 1][1..];
    }
  }

  /** No sequence of actions changes the selected category, and the stories
      shown are always those of the most recent success. */
  lemma {:induction false} RunKeepsCategory(s: State, actions: seq<Action>)
    ensures Run(s, actions).storyType == s.storyType
    ensures Run(s, actions).stories == LastFetched(s.stories, actions)
    decreases |actions|
  {
    if actions != [] {
      RunSplit(s, actions);
      RunKeepsCategory(s, actions[..|actions| - 1]);
    }
  }

  /** From the initial state the category stays New whatever is dispatched. */
  lemma ReachableCategoryIsNew(actions: seq<Action>)
    ensures Run(Initial, actions).storyType == New
  {
    RunKeepsCategory(Initial, actions);
  }

  /** A request followed by its success ends with exactly the fetched stories
      and the loading flag cleared, whatever was shown before. */
  lemma RequestThenSuccess(s: State, t: StoryType, xs: seq<Story>)
    ensures Reduce(Reduce(s, GetStories(t)), GetStoriesSuccess(xs)) == State(s.storyType, xs, false)
  {
  }
}
