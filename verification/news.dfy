/** The article records that flow between the feed, the backend tables and the views. */
module News {

  /** The identifier of an authenticated user, as the auth service hands it out. */
  type UserId = string

  /** The feed article the normaliser builds and the dashboard keeps in its state.
      It carries a `title`, which the declared `Article` interface does not, and its
      `sentiment` is whatever text the normaliser produced. */
  datatype FeedArticle = FeedArticle(
    id: string,
    uuid: string,
    title: string,
    imageUrl: string,
    summary: string,
    articleUrl: string,
    sentiment: string,
    source: string,
    publishedAt: string)

  /** A row of the backend `articles` table. */
  datatype ArticleRow = ArticleRow(
    id: string,
    imageUrl: string,
    summary: string,
    articleUrl: string,
    sentiment: string,
    source: string,
    publishedAt: string)

  /** A saved article as the saved-articles read returns it: the article row's columns
      flattened together with the owner and the save time of its join row. */
  datatype SavedArticle = SavedArticle(
    id: string,
    imageUrl: string,
    summary: string,
    articleUrl: string,
    sentiment: string,
    source: string,
    publishedAt: string,
    userId: UserId,
    savedAt: string)

  /** The three values the declared `Article.sentiment` union admits. */
  predicate IsDeclaredSentiment(s: string) {
    s == "positive" || s == "neutral" || s == "negative"
  }
}
