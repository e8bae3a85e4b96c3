/**
  The predefined topics a ranking can start from (src/lib/ItemTemplates.tsx):
  a constant table from topic key to its default items, the names shown for
  the keys, and the lookups that fall back to a custom topic for any other
  string.
 */
module ItemTemplates {
  import opened Seqs

  // The default items of each predefined topic.
  const BasicValues: seq<string> := ["Spirituality", "Family", "Friends", "Significant Other",
    "Health", "Learning", "Fun", "Career"]
  const Blank: seq<string> := []
  const Cuisines: seq<string> := ["Italian", "Mexican", "Japanese", "Indian", "Thai", "French",
    "Korean", "Chinese", "Mediterranean", "American", "German", "Spanish"]
  // The two long items are written as two literals each, whose characters the solver reads cheaply.
  const FunnySituations: seq<string> := ["Accidentally sending a text " + "to the wrong person",
    "Mooching off your parents " + "even though you're an adult"]
  const LoveLanguages: seq<string> := ["Acts of Service", "Quality Time", "Words of Affirmation",
    "Gifts", "Physical Touch"]
  const RomanticGestures: seq<string> := ["Breakfast in Bed", "Home-cooked Meal", "Surprise Event Tickets",
    "Small Thoughtful Gifts", "Cuddling", "Useful Gifts", "Movie Night",
    "Compliments, Love Letter", "Weekend Getaway", "Candlelight Dinner",
    "Massage/Spa"]
  const Movies: seq<string> := ["Action", "Comedy", "Drama", "Horror", "Sci-Fi", "Romance", "Thriller",
    "Documentary", "Animation", "Fantasy"]
  const MusicGenres: seq<string> := ["Pop", "Rock", "Hip Hop", "Jazz", "Classical", "Country",
    "Electronic", "R&B", "Folk", "Metal"]
  const Hobbies: seq<string> := ["Reading", "Gaming", "Sports", "Cooking", "Travel", "Photography",
    "Art", "Music", "Writing", "Gardening"]
  const VacationTypes: seq<string> := ["Beach Resort", "Mountain Hiking", "City Exploration", "Road Trip",
    "Cruise", "Camping", "Theme Park", "Cultural Tour",
    "Adventure Sports", "Relaxing Spa"]
  const Pets: seq<string> := ["Dog", "Cat", "Bird", "Fish"]
  const Seasons: seq<string> := ["Spring", "Summer", "Fall", "Winter"]
  const CoffeeDrinks: seq<string> := ["Espresso", "Latte", "Cappuccino", "Americano", "Mocha", "Cold Brew",
    "Macchiato", "Flat White", "Cortado", "Iced Coffee"]

  /** `TEMPLATES`: the default items of every predefined topic, in the table's order. */
  const Templates: map<string, seq<string>> := map[
    "basic_values" := BasicValues,
    "blank" := Blank,
    "cuisines" := Cuisines,
    "funny_situations" := FunnySituations,
    "love_languages" := LoveLanguages,
    "romantic_gestures" := RomanticGestures,
    "movies" := Movies,
    "music_genres" := MusicGenres,
    "hobbies" := Hobbies,
    "vacation_types" := VacationTypes,
    "pets" := Pets,
    "seasons" := Seasons,
    "coffee_drinks" := CoffeeDrinks
  ]

  /** `TEMPLATE_DISPLAY_NAMES`: the label shown for each predefined topic. */
  const DisplayNames: map<string, string> := map[
    "blank" := "Anything",
    "basic_values" := "Core Values",
    "cuisines" := "Cuisines",
    "funny_situations" := "Funny Situations",
    "love_languages" := "Love Languages",
    "romantic_gestures" := "Romantic Gestures",
    "movies" := "Movie Genres",
    "music_genres" := "Music Genres",
    "hobbies" := "Hobbies",
    "vacation_types" := "Vacation Types",
    "pets" := "Pets",
    "seasons" := "Seasons",
    "coffee_drinks" := "Coffee Drinks"
  ]

  /** The thirteen predefined topic keys. */
  const PredefinedKeys: set<string> := {
    "basic_values", "blank", "cuisines", "funny_situations", "love_languages",
    "romantic_gestures", "movies", "music_genres", "hobbies", "vacation_types",
    "pets", "seasons", "coffee_drinks"
  }

  /** `isPredefinedTemplate`: the topic is a key of the table. */
  predicate IsPredefinedTemplate(topic: string)
  {
    topic in Templates
  }

  /** The predefined topics are exactly the thirteen keys, and every one of them has a label. */
  lemma PredefinedTopics(topic: string)
    ensures IsPredefinedTemplate(topic) <==> topic in PredefinedKeys
    ensures DisplayNames.Keys == Templates.Keys
  {
  }

  /** `getTemplateItems`: the table's items for a predefined topic, none for a custom one. */
  function GetTemplateItems(topic: string): (r: seq<string>)
    ensures IsPredefinedTemplate(topic) ==> r == Templates[topic]
    ensures !IsPredefinedTemplate(topic) ==> r == []
  {
    if IsPredefinedTemplate(topic) then Templates[topic] else []
  }

  /** `getTopicDisplayName`: the label of a predefined topic, the topic itself for a custom one. */
  function GetTopicDisplayName(topic: string): (r: string)
    ensures IsPredefinedTemplate(topic) ==> topic in DisplayNames && r == DisplayNames[topic]
    ensures !IsPredefinedTemplate(topic) ==> r == topic
  {
    PredefinedTopics(topic);
    if IsPredefinedTemplate(topic) then DisplayNames[topic] else topic
  }

  /** The `'blank'` topic has no items. */
  lemma BlankIsEmpty()
    ensures IsPredefinedTemplate("blank") && GetTemplateItems("blank") == []
  {
  }

  /** Every item starts with a capital letter. */
  predicate Capitalised(items: seq<string>)
  {
    forall i :: 0 <= i < |items| ==> |items[i]| > 0 && 'A' <= items[i][0] <= 'Z'
  }

  lemma FirstTopicListsUnique()
    ensures Unique(BasicValues) && Unique(Blank) && Unique(Cuisines) && Unique(FunnySituations)
    ensures Unique(LoveLanguages) && Unique(RomanticGestures)
  {
    assert FunnySituations[0][0] != FunnySituations[1][0];
  }

  lemma LastTopicListsUnique()
    ensures Unique(Movies) && Unique(MusicGenres) && Unique(Hobbies) && Unique(VacationTypes)
    ensures Unique(Pets) && Unique(Seasons) && Unique(CoffeeDrinks)
  {
  }

  lemma FirstTopicListsCapitalised()
    ensures Capitalised(BasicValues) && Capitalised(Blank) && Capitalised(Cuisines)
    ensures Capitalised(FunnySituations) && Capitalised(LoveLanguages)
  {
  }

  lemma MiddleTopicListsCapitalised()
    ensures Capitalised(RomanticGestures) && Capitalised(Movies) && Capitalised(MusicGenres)
    ensures Capitalised(Hobbies)
  {
  }

  lemma LastTopicListsCapitalised()
    ensures Capitalised(VacationTypes) && Capitalised(Pets) && Capitalised(Seasons)
    ensures Capitalised(CoffeeDrinks)
  {
  }

  /** A predefined topic's items are one of the thirteen lists. */
  lemma TopicList(topic: string)
    requires IsPredefinedTemplate(topic)
    ensures var l := Templates[topic];
      || l == BasicValues || l == Blank || l == Cuisines || l == FunnySituations
      || l == LoveLanguages || l == RomanticGestures || l == Movies || l == MusicGenres
      || l == Hobbies || l == VacationTypes || l == Pets || l == Seasons || l == CoffeeDrinks
  {
  }

  /** No topic lists the same item twice, and every item starts with a capital letter. */
  lemma TemplateItemsWellFormed(topic: string)
    ensures Unique(GetTemplateItems(topic))
    ensures Capitalised(GetTemplateItems(topic))
  {
    if IsPredefinedTemplate(topic) {
      TopicList(topic);
      FirstTopicListsUnique();
      LastTopicListsUnique();
      FirstTopicListsCapitalised();
      MiddleTopicListsCapitalised();
      LastTopicListsCapitalised();
    }
  }
}
